/** What the Parking.c segmentation guarantees about the objects and posts it reports. */
module ParkingScanFacts {
  import opened Basics
  import opened Sweep
  import opened ParkingScan

  /** One step of the scan at an above-threshold slot `i`: the run of n samples is kept
      iff its angular width 2n exceeds 4, i.e. n >= 3. A kept run resumes the scan 4 past
      its terminating slot (so the slot 2 past it is never a start), a rejected one 2 past. */
  lemma RunAcceptance(s: seq<Sample>, i: int)
    requires Closed(s, IrThreshold)
    requires 0 <= i <= LastAngle && Even(i) && Above(s, IrThreshold, i)
    ensures var e := RunEnd(s, IrThreshold, i);
            var n := (e - i) / 2;
            && e == i + 2 * n && n >= 1
            && (n >= 3 ==> Runs(s, i) == [Run(i, e)] + Runs(s, e + 4))
            && (n < 3 ==> Runs(s, i) == Runs(s, e + 2))
            && (n >= 3 ==> forall r :: r in Runs(s, i)[1..] ==> r.start >= e + 4)
  {
  }

  /** A sweep with nothing above the threshold from slot `i` on yields no runs. */
  lemma {:induction false} NoRunsWhenAllBelow(s: seq<Sample>, i: int)
    requires Closed(s, IrThreshold)
    requires 0 <= i && Even(i)
    requires forall a :: i <= a <= LastAngle && Even(a) ==> !Above(s, IrThreshold, a)
    ensures Runs(s, i) == []
    decreases Slots - i
  {
    if i < Slots {
      NoRunsWhenAllBelow(s, i + 2);
    }
  }

  /** Completeness: an above-threshold run wider than 4 degrees whose two preceding slots
      are below the threshold (or before the scan's starting slot) is reported as it is. */
  lemma {:induction false} RunReported(s: seq<Sample>, i: int, a: int, b: int)
    requires Closed(s, IrThreshold)
    requires 0 <= i <= a && Even(i)
    requires IsRunFrom(s, IrThreshold, a, b) && b - a > NoiseMaxWidth
    requires a - 2 < i || !Above(s, IrThreshold, a - 2)
    requires a - 4 < i || !Above(s, IrThreshold, a - 4)
    ensures Run(a, b) in Runs(s, i)
    decreases a - i
  {
    if i == a {
      RunEndUnique(s, IrThreshold, a, b);
    } else if !Above(s, IrThreshold, i) {
      RunReported(s, i + 2, a, b);
    } else {
      var e := RunEnd(s, IrThreshold, i);
      RunEndIsFirst(s, IrThreshold, i, a - 2);
      if e - i <= NoiseMaxWidth {
        RunReported(s, e + 2, a, b);
      } else {
        RunReported(s, e + 4, a, b);
        assert Runs(s, i) == [Run(i, e)] + Runs(s, e + 4);
      }
    }
  }

  lemma {:induction false} OnlyRunFrom(s: seq<Sample>, i: int, a: int, b: int)
    requires Closed(s, IrThreshold)
    requires 0 <= i <= a && Even(i)
    requires IsRunFrom(s, IrThreshold, a, b) && b - a > NoiseMaxWidth
    requires forall x :: i <= x <= LastAngle && Even(x) && (x < a || x >= b) ==>
               !Above(s, IrThreshold, x)
    ensures Runs(s, i) == [Run(a, b)]
    decreases a - i
  {
    if i == a {
      RunEndUnique(s, IrThreshold, a, b);
      NoRunsWhenAllBelow(s, b + 4);
    } else {
      assert !Above(s, IrThreshold, i);
      OnlyRunFrom(s, i + 2, a, b);
    }
  }

  /** A sweep whose only above-threshold slots form one contiguous run `[a, b)` wider than
      4 degrees yields exactly one object, centred on the run's midpoint rounded up to the
      2-degree grid, at the ultrasonic distance read there. */
  lemma SingleObject(s: seq<Sample>, arc: (int, int) -> int, a: int, b: int)
    requires Closed(s, IrThreshold)
    requires IsRunFrom(s, IrThreshold, a, b) && b - a > NoiseMaxWidth
    requires forall x :: 0 <= x <= LastAngle && Even(x) && (x < a || x >= b) ==>
               !Above(s, IrThreshold, x)
    ensures |Objects(s, arc)| == 1
    ensures var o := Objects(s, arc)[0];
            && 0 <= 2 * o.angle - (a + b) <= 2 && Even(o.angle)
            && o.dist == s[o.angle].ping
            && o.angWidth == b - a
  {
    OnlyRunFrom(s, 0, a, b);
  }

  /** With nothing above the threshold there are no objects and no posts. */
  lemma EmptySweep(s: seq<Sample>, arc: (int, int) -> int)
    requires Closed(s, IrThreshold)
    requires forall x :: 0 <= x <= LastAngle && Even(x) ==> !Above(s, IrThreshold, x)
    ensures Objects(s, arc) == [] && Posts(s, arc) == []
  {
    NoRunsWhenAllBelow(s, 0);
  }

  /** Because every stored post angle is nonzero and the rows past the last post have
      angle 0, `getNumSkinnys` after `findObjects` equals `skinnyIndex` while fewer than 4
      posts are stored; with all 4 rows filled it reads past the table. */
  lemma PostCountIsSkinnyIndex(s: seq<Sample>, prevSkinny: seq<Post>, postFound: int,
                               arc: (int, int) -> int)
    requires Fits(s, arc) && |prevSkinny| == SkinnyRows
    ensures var d := FindObjects(s, prevSkinny, postFound, arc);
            && (d.skinnyIndex < SkinnyRows ==> GetNumSkinnys(d.skinny) == Some(d.skinnyIndex))
            && (d.skinnyIndex == SkinnyRows ==> GetNumSkinnys(d.skinny) == None)
  {
    var d := FindObjects(s, prevSkinny, postFound, arc);
    var ps := Posts(s, arc);
    var t := d.skinny;
    var n := d.skinnyIndex;
    forall k | 0 <= k < n
      ensures t[k].angle != 0
    {
      assert t[k] == t[..n][k] == ps[k];
    }
    CountOfListed(t, n);
  }

  /** A table of `n` nonzero angles followed by zero angles counts `n` rows, or reads past
      the table when every row is filled. */
  lemma CountOfListed(t: seq<Post>, n: nat)
    requires |t| == SkinnyRows && n <= SkinnyRows
    requires forall k :: 0 <= k < n ==> t[k].angle != 0
    requires forall k :: n <= k < SkinnyRows ==> t[k].angle == 0
    ensures n < SkinnyRows ==> GetNumSkinnys(t) == Some(n)
    ensures n == SkinnyRows ==> GetNumSkinnys(t) == None
  {
    if n < SkinnyRows {
      assert t[n].angle == 0;
    }
  }
}
