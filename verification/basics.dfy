/** Small shared vocabulary: an optional value, C's truncating halving, and the
    "advance while the slot is nonzero" scan that the robot uses to count table rows. */
module Basics {

  /** `None` stands for "the C code has no defined result here" (a read past a table,
      a function that falls off its end, a trace that ran out). */
  datatype Option<+T> = None | Some(value: T)

  /** C's `a / 2` on `int`: truncation toward zero, unlike Dafny's Euclidean `/`. */
  function CHalf(a: int): (q: int)
    ensures -1 <= a - 2 * q <= 1
    ensures a >= 0 ==> 0 <= a - 2 * q
    ensures a <= 0 ==> a - 2 * q <= 0
  {
    if a >= 0 then a / 2 else -((-a) / 2)
  }

  /** The C loop `i = 0; while (t[i] != 0) i++; return i;` over a table of |t| rows.
      `None` when every row is nonzero, so that the loop would read past the table. */
  function FirstZero(t: seq<int>): (r: Option<nat>)
    ensures r.Some? ==> r.value < |t| && t[r.value] == 0
    ensures r.Some? ==> forall j :: 0 <= j < r.value ==> t[j] != 0
    ensures r.None? <==> forall j :: 0 <= j < |t| ==> t[j] != 0
  {
    FirstZeroFrom(t, 0)
  }

  function FirstZeroFrom(t: seq<int>, i: nat): (r: Option<nat>)
    requires i <= |t|
    requires forall j :: 0 <= j < i ==> t[j] != 0
    ensures r.Some? ==> i <= r.value < |t| && t[r.value] == 0
    ensures r.Some? ==> forall j :: 0 <= j < r.value ==> t[j] != 0
    ensures r.None? <==> forall j :: 0 <= j < |t| ==> t[j] != 0
    decreases |t| - i
  {
    if i == |t| then None
    else if t[i] != 0 then FirstZeroFrom(t, i + 1)
    else Some(i)
  }
}
