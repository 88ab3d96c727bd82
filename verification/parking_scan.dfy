/** Segmentation of a sweep into objects and skinny posts, as `findObjects` and the
    table helpers of Parking.c do it. */
module ParkingScan {
  import opened Basics
  import opened Sweep

  /** `IR_THRESHOLD_VAL`: a slot belongs to an object when its infrared reading exceeds it. */
  const IrThreshold: int := 675
  /** Runs whose angular width is at most this many degrees are discarded as noise. */
  const NoiseMaxWidth: int := 4
  /** Objects whose estimated linear width is at most this are skinny posts. */
  const SkinnyMaxWidth: int := 9
  /** Rows of `objects[15][4]`. */
  const ObjectRows: int := 15
  /** Rows of `skinnyObjects[4][2]`. */
  const SkinnyRows: int := 4

  /** One row of `objects`: centre angle, distance, linear width, angular width. */
  datatype Obj = Obj(angle: int, dist: int, width: int, angWidth: int)

  /** One row of `skinnyObjects`: angle and distance of a skinny post. */
  datatype Post = Post(angle: int, dist: int)

  /** An above-threshold run: `start` is its first slot, `end` the first slot past it. */
  datatype Run = Run(start: int, end: int)

  const EmptyObj: Obj := Obj(0, 0, 0, 0)

  /** `clearObjects`: every cell of the 15-row table is zero. */
  function ClearObjects(): (t: seq<Obj>)
    ensures |t| == ObjectRows
    ensures forall k :: 0 <= k < |t| ==> t[k] == EmptyObj
  {
    seq(ObjectRows, _ => EmptyObj)
  }

  /** `clearSkinny`: its inner loop runs only over column 0, so the angles are zeroed and
      the distances of earlier posts stay in place. */
  function ClearSkinny(t: seq<Post>): (r: seq<Post>)
    ensures |r| == |t|
    ensures forall k :: 0 <= k < |r| ==> r[k].angle == 0 && r[k].dist == t[k].dist
  {
    seq(|t|, k requires 0 <= k < |t| => Post(0, t[k].dist))
  }

  /** `getNumSkinnys`: counts rows up to the first zero angle; `None` when all rows hold a
      nonzero angle and the loop would read past the table. */
  function GetNumSkinnys(t: seq<Post>): (r: Option<nat>)
    ensures r.Some? ==> r.value < |t| && t[r.value].angle == 0
    ensures r.Some? ==> forall j :: 0 <= j < r.value ==> t[j].angle != 0
    ensures r.None? <==> forall j :: 0 <= j < |t| ==> t[j].angle != 0
  {
    var angles := seq(|t|, k requires 0 <= k < |t| => t[k].angle);
    assert forall j :: 0 <= j < |t| ==> angles[j] == t[j].angle;
    FirstZero(angles)
  }

  /** Right after `clearSkinny` the count is zero. */
  lemma ClearedCountsZero(t: seq<Post>)
    requires |t| > 0
    ensures GetNumSkinnys(ClearSkinny(t)) == Some(0)
  {
  }

  /** The stored centre: `(start + end) / 2`, bumped to the next even angle when odd. */
  function Centre(start: int, end: int): (c: int)
    requires 0 <= start && Even(start) && Even(end) && end - start >= 4
    ensures Even(c)
    ensures 0 <= 2 * c - (start + end) <= 2
    ensures start < c < end
    ensures end - start > NoiseMaxWidth ==> c >= 4
  {
    var mid := (start + end) / 2;
    if mid % 2 == 1 then mid + 1 else mid
  }

  /** A run the scan keeps: a complete above-threshold run wider than the noise limit. */
  predicate Accepted(s: seq<Sample>, r: Run) {
    IsRunFrom(s, IrThreshold, r.start, r.end) && r.end - r.start > NoiseMaxWidth
  }

  /** The outer `for` loop of `findObjects` from slot `i`: the runs it keeps, in order.
      A slot below the threshold moves on by 2; a run is measured by the inner `while`;
      a rejected run resumes 2 past its end, a kept one 4 past it (the `i += 2` after an
      object plus the loop's own step). */
  function Runs(s: seq<Sample>, i: int): (rs: seq<Run>)
    requires Closed(s, IrThreshold)
    requires 0 <= i && Even(i)
    ensures forall k :: 0 <= k < |rs| ==> Accepted(s, rs[k]) && i <= rs[k].start
    ensures forall k, l :: 0 <= k < l < |rs| ==> rs[k].end + 4 <= rs[l].start
    decreases Slots - i
  {
    if i >= Slots then []
    else if !Above(s, IrThreshold, i) then Runs(s, i + 2)
    else
      var e := RunEnd(s, IrThreshold, i);
      if e - i <= NoiseMaxWidth then Runs(s, e + 2)
      else [Run(i, e)] + Runs(s, e + 4)
  }

  /** The object row a kept run produces. The distance is the ultrasonic reading at the
      centre; `arc(radius, angularWidth)` stands for the truncated arc-length formula. */
  predicate IsObjectOf(s: seq<Sample>, arc: (int, int) -> int, r: Run, o: Obj)
    requires Accepted(s, r)
  {
    && o.angle == Centre(r.start, r.end)
    && o.dist == s[o.angle].ping
    && o.angWidth == r.end - r.start
    && o.width == arc(o.dist, o.angWidth)
  }

  /** The object row for one kept run. */
  function ObjectOf(s: seq<Sample>, arc: (int, int) -> int, r: Run): (o: Obj)
    requires Accepted(s, r)
    ensures IsObjectOf(s, arc, r, o)
    ensures Even(o.angle) && 4 <= o.angle && r.start < o.angle < r.end
  {
    var c := Centre(r.start, r.end);
    var d := s[c].ping;
    Obj(c, d, arc(d, r.end - r.start), r.end - r.start)
  }

  /** The objects of a sweep, one per kept run. Centres are even, at least 4 and strictly
      increasing with the object index. */
  function Objects(s: seq<Sample>, arc: (int, int) -> int): (objs: seq<Obj>)
    requires Closed(s, IrThreshold)
    ensures |objs| == |Runs(s, 0)|
    ensures forall k :: 0 <= k < |objs| ==> IsObjectOf(s, arc, Runs(s, 0)[k], objs[k])
    ensures forall k :: 0 <= k < |objs| ==> Even(objs[k].angle) && 4 <= objs[k].angle < LastAngle
    ensures forall k, l :: 0 <= k < l < |objs| ==> objs[k].angle < objs[l].angle
  {
    var rs := Runs(s, 0);
    seq(|rs|, k requires 0 <= k < |rs| => ObjectOf(s, arc, rs[k]))
  }

  /** Indices, from `from` on, of the objects the scan records as skinny posts: exactly
      those whose linear width is at most `SkinnyMaxWidth`, in increasing order. */
  function SkinnyIndices(objs: seq<Obj>, from: nat): (idx: seq<nat>)
    requires from <= |objs|
    ensures forall k :: 0 <= k < |idx| ==> from <= idx[k] < |objs| && objs[idx[k]].width <= SkinnyMaxWidth
    ensures forall k, l :: 0 <= k < l < |idx| ==> idx[k] < idx[l]
    ensures forall j :: from <= j < |objs| && objs[j].width <= SkinnyMaxWidth ==> j in idx
    ensures |idx| <= |objs| - from
    decreases |objs| - from
  {
    if from == |objs| then []
    else if objs[from].width <= SkinnyMaxWidth then [from] + SkinnyIndices(objs, from + 1)
    else SkinnyIndices(objs, from + 1)
  }

  /** `p` is the (angle, distance) pair of an object no wider than `SkinnyMaxWidth`. */
  predicate SkinnyPostOf(objs: seq<Obj>, p: Post) {
    exists j :: 0 <= j < |objs| && objs[j].width <= SkinnyMaxWidth && p == Post(objs[j].angle, objs[j].dist)
  }

  /** The (angle, distance) pairs `findObjects` records from an object table, in table
      order: exactly those of the objects no wider than `SkinnyMaxWidth`. */
  function SkinnyPosts(objs: seq<Obj>): (ps: seq<Post>)
    ensures var idx := SkinnyIndices(objs, 0);
            |ps| == |idx| && forall k :: 0 <= k < |ps| ==> ps[k] == Post(objs[idx[k]].angle, objs[idx[k]].dist)
    ensures forall k :: 0 <= k < |ps| ==> SkinnyPostOf(objs, ps[k])
    ensures forall j :: 0 <= j < |objs| && objs[j].width <= SkinnyMaxWidth ==> Post(objs[j].angle, objs[j].dist) in ps
  {
    var idx := SkinnyIndices(objs, 0);
    assert forall k :: 0 <= k < |idx| ==> idx[k] < |objs| && objs[idx[k]].width <= SkinnyMaxWidth;
    seq(|idx|, k requires 0 <= k < |idx| => Post(objs[idx[k]].angle, objs[idx[k]].dist))
  }

  /** The posts `findObjects` stores for a sweep. */
  function Posts(s: seq<Sample>, arc: (int, int) -> int): (ps: seq<Post>)
    requires Closed(s, IrThreshold)
    ensures |ps| <= |Runs(s, 0)|
    ensures forall k :: 0 <= k < |ps| ==> Even(ps[k].angle) && 4 <= ps[k].angle < LastAngle
    ensures forall k, l :: 0 <= k < l < |ps| ==> ps[k].angle < ps[l].angle
  {
    SkinnyPosts(Objects(s, arc))
  }

  /** The posts of a sweep are exactly the (angle, distance) pairs of its objects no wider
      than `SkinnyMaxWidth`: every post is such an object's, and every such object's pair is
      a post. */
  lemma PostsAreSkinnyObjects(s: seq<Sample>, arc: (int, int) -> int)
    requires Closed(s, IrThreshold)
    ensures var objs, ps := Objects(s, arc), Posts(s, arc);
            forall k :: 0 <= k < |ps| ==> SkinnyPostOf(objs, ps[k])
    ensures var objs, ps := Objects(s, arc), Posts(s, arc);
            forall j :: 0 <= j < |objs| && objs[j].width <= SkinnyMaxWidth ==> Post(objs[j].angle, objs[j].dist) in ps
  {
    var objs := Objects(s, arc);
    assert Posts(s, arc) == SkinnyPosts(objs);
  }

  /** What `findObjects` needs to stay inside its tables: the inner loop stops before slot
      182, at most 15 objects (`objects[objNum]` is written unchecked) and at most 4 posts
      (`skinnyObjects[skinnyIndex]` likewise). */
  predicate Fits(s: seq<Sample>, arc: (int, int) -> int) {
    && Closed(s, IrThreshold)
    && |Runs(s, 0)| <= ObjectRows
    && |Posts(s, arc)| <= SkinnyRows
  }

  /** Everything `findObjects` leaves behind: the object table and its count, the skinny
      table, `skinnyIndex` and `skinnyPostFound`. */
  datatype Detection = Detection(objects: seq<Obj>, count: nat, skinny: seq<Post>,
                                 skinnyIndex: nat, postFound: int)

  /** `findObjects`: clears the tables, stores one row per kept run, records the skinny
      ones, and raises the post flag when at least one is found (it never lowers it). */
  function FindObjects(s: seq<Sample>, prevSkinny: seq<Post>, postFound: int,
                       arc: (int, int) -> int): (d: Detection)
    requires Fits(s, arc)
    requires |prevSkinny| == SkinnyRows
    ensures |d.objects| == ObjectRows && |d.skinny| == SkinnyRows
    ensures d.count == |Runs(s, 0)| && d.objects[..d.count] == Objects(s, arc)
    ensures forall k :: d.count <= k < ObjectRows ==> d.objects[k] == EmptyObj
    ensures d.skinnyIndex == |Posts(s, arc)| && d.skinny[..d.skinnyIndex] == Posts(s, arc)
    ensures forall k :: d.skinnyIndex <= k < SkinnyRows ==>
              d.skinny[k] == Post(0, prevSkinny[k].dist)
    ensures d.postFound == (if d.skinnyIndex > 0 then 1 else postFound)
  {
    var objs := Objects(s, arc);
    var posts := Posts(s, arc);
    var cleared := ClearSkinny(prevSkinny);
    Detection(objs + ClearObjects()[|objs|..], |objs|,
              posts + cleared[|posts|..], |posts|,
              if |posts| > 0 then 1 else postFound)
  }
}
