/** `findGaps` and `findClosestGap` of Parking.c. */
module ParkingGaps {
  import opened Basics
  import opened ParkingScan

  /** Rows of `gaps[14][3]`. */
  const GapRows: int := 14

  /** One row of `gaps`: linear width, centre angle, distance to the nearer bounding object. */
  datatype Gap = Gap(width: int, angle: int, dist: int)

  const EmptyGap: Gap := Gap(0, 0, 0)

  /** The gap table and the count `findGaps` returns. */
  datatype GapTable = GapTable(gaps: seq<Gap>, count: nat)

  /** `clearGaps`: every cell of the 14-row table is zero. */
  function ClearGaps(): (t: seq<Gap>)
    ensures |t| == GapRows
    ensures forall k :: 0 <= k < |t| ==> t[k] == EmptyGap
  {
    seq(GapRows, _ => EmptyGap)
  }

  /** The gap between two neighbouring objects. Its distance is the nearer of the two
      object distances; its centre is their mean angle (C's truncating `/ 2`); its width is
      `gw(distance, angular separation)` on both branches of the `< 90` test, which compute
      the same expression. */
  function GapBetween(a: Obj, b: Obj, gw: (int, int) -> int): (g: Gap)
    ensures g.dist <= a.dist && g.dist <= b.dist
    ensures g.dist == a.dist || g.dist == b.dist
    ensures -1 <= (a.angle + b.angle) - 2 * g.angle <= 1
    ensures a.angle + b.angle >= 0 ==> 2 * g.angle <= a.angle + b.angle
    ensures a.angle + b.angle <= 0 ==> a.angle + b.angle <= 2 * g.angle
    ensures a.angle <= b.angle ==> a.angle <= g.angle <= b.angle
    ensures g.width == gw(g.dist, b.angle - a.angle)
  {
    var sep := b.angle - a.angle;
    var d := if a.dist > b.dist then b.dist else a.dist;
    var w := if sep < 90 then gw(d, sep) else gw(d, sep);
    Gap(w, CHalf(a.angle + b.angle), d)
  }

  /** `findGaps(numObjs)`: one gap per neighbouring pair among the first `numObjs` objects,
      so `max(numObjs - 1, 0)` of them; the remaining rows stay cleared. */
  function FindGaps(objects: seq<Obj>, numObjs: int, gw: (int, int) -> int): (t: GapTable)
    requires |objects| == ObjectRows
    requires 0 <= numObjs <= ObjectRows
    ensures |t.gaps| == GapRows
    ensures t.count == if numObjs > 0 then numObjs - 1 else 0
    ensures forall i :: 0 <= i < t.count ==> t.gaps[i] == GapBetween(objects[i], objects[i + 1], gw)
    ensures forall i :: t.count <= i < GapRows ==> t.gaps[i] == EmptyGap
  {
    var n := if numObjs > 0 then numObjs - 1 else 0;
    var found := seq(n, i requires 0 <= i < n => GapBetween(objects[i], objects[i + 1], gw));
    GapTable(found + ClearGaps()[n..], n)
  }

  /** `findClosestGap(numGaps)`. One gap gives index 0; two gaps give the one with the
      strictly smaller distance. In every other case (no gap, three or more, or two equal
      distances) the function computes `smallestGapNum` in a loop and then ends without a
      `return`, so the caller receives no defined value: `None`. Whenever a value is
      returned it is a gap of least distance. */
  function FindClosestGap(gaps: seq<Gap>, numGaps: int): (r: Option<nat>)
    requires |gaps| == GapRows
    requires 0 <= numGaps <= GapRows
    ensures r.Some? <==> numGaps == 1 || (numGaps == 2 && gaps[0].dist != gaps[1].dist)
    ensures r.Some? ==> r.value < numGaps
    ensures r.Some? ==> forall j :: 0 <= j < numGaps ==> gaps[r.value].dist <= gaps[j].dist
    ensures r.Some? && numGaps == 2 ==> gaps[r.value].dist < gaps[1 - r.value].dist
  {
    if numGaps == 1 then Some(0)
    else if numGaps == 2 && gaps[0].dist < gaps[1].dist then Some(0)
    else if numGaps == 2 && gaps[0].dist > gaps[1].dist then Some(1)
    else None
  }

  /** The two-object example: objects at 30 and 150 degrees, 40 and 60 cm away, leave one
      gap at 90 degrees whose distance is the nearer 40 cm. */
  lemma TwoObjectGap(gw: (int, int) -> int)
    ensures var objs := [Obj(30, 40, 0, 6), Obj(150, 60, 0, 6)] + ClearObjects()[2..];
            var t := FindGaps(objs, 2, gw);
            t.count == 1 && t.gaps[0].angle == 90 && t.gaps[0].dist == 40
            && FindClosestGap(t.gaps, t.count) == Some(0)
  {
  }
}
