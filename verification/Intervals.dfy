/** The intervals of value-range-analysis: a range is a list of no, two or four bounds, which are 32-bit ints. */
module Intervals {
  type Int32 = v: int | -0x8000_0000 <= v < 0x8000_0000

  const INT_MIN: Int32 := -0x8000_0000
  const INT_MAX: Int32 := 0x7fff_ffff

  type Range = seq<Int32>

  /** What the analysis takes for infinity. */
  const INF: Int32 := 0x7ffffff
  const MINUS_INF: Int32 := -0x7ffffff

  const TWO32 := 0x1_0000_0000

  /** How often a number goes round the 32-bit ints. */
  function Period(v: int): int {
    (v + 0x8000_0000) / TWO32
  }

  /** The 32-bit int an operation leaves for its exact result. */
  function Wrap(v: int): (w: Int32)
    ensures v == w + TWO32 * Period(v)
  {
    v - TWO32 * Period(v)
  }

  predicate Fits(v: int) {
    INT_MIN <= v <= INT_MAX
  }

  function Difference(x: Int32, y: Int32): Int32 {
    var v: int := x;
    Wrap(v - y)
  }

  /** One more and one less, which wrap around at the ends. */
  function Successor(v: Int32): Int32 {
    if v < INT_MAX then v + 1 else INT_MIN
  }

  function Predecessor(v: Int32): Int32 {
    if v > INT_MIN then v - 1 else INT_MAX
  }

  lemma WrapFits(v: int)
    requires Fits(v)
    ensures Wrap(v) == v
  {}

  /** A single interval that is not empty. */
  predicate IsInterval(r: Range) {
    |r| == 2 && r[0] <= r[1]
  }

  /** The first interval of a range, which may have a second one, is not empty. */
  predicate FirstOk(r: Range) {
    |r| >= 2 && r[0] <= r[1]
  }

  predicate InFirst(r: Range, v: int) {
    |r| >= 2 && r[0] <= v <= r[1]
  }

  predicate Contains(r: Range, v: int) {
    (|r| >= 2 && r[0] <= v <= r[1]) || (|r| >= 4 && r[2] <= v <= r[3])
  }

  function Min(a: Int32, b: Int32): Int32 {
    if a < b then a else b
  }

  function Max(a: Int32, b: Int32): Int32 {
    if a < b then b else a
  }

  /** Only the first interval of a range is looked at. */
  function Intersect(left: Range, right: Range): Range
    requires |left| != 1 && |right| != 1
  {
    if left == [] then left
    else if right == [] then right
    else
      var varmin, varmax := Max(left[0], right[0]), Min(left[1], right[1]);
      if varmin <= varmax then [varmin, varmax] else []
  }

  /** Nothing comes out when right is not inside left, or when what is left over on a side is too wide for an int. */
  function Cut(left: Range, right: Range): Range
    requires |left| != 1 && |right| != 1
  {
    if Intersect(left, right) == [] || !(left[0] <= right[0] && right[1] <= left[1]) then []
    else
      var onLeft, onRight := Difference(right[0], left[0]), Difference(left[1], right[1]);
      if onLeft >= 1 && onRight >= 1 then [left[0], right[0] - 1, right[1] + 1, left[1]]
      else if onLeft == 0 && onRight >= 1 then [right[1] + 1, left[1]]
      else if onLeft >= 1 && onRight == 0 then [left[0], right[0] - 1]
      else []
  }

  /** The values in both first intervals, whatever the second ones are. */
  lemma IntersectExact(left: Range, right: Range, v: int)
    requires |left| >= 2 && |right| >= 2
    ensures Contains(Intersect(left, right), v) <==> InFirst(left, v) && InFirst(right, v)
    ensures Intersect(left, right) == [] || IsInterval(Intersect(left, right))
  {}

  /** Right is inside left, and the differences of their bounds are ints. */
  predicate CanBeCut(left: Range, right: Range)
    requires |left| >= 2 && |right| >= 2
  {
    && left[0] <= right[0] && right[1] <= left[1]
    && Difference(right[0], left[0]) >= 0 && Difference(left[1], right[1]) >= 0
  }

  /** Cutting leaves the difference of the first intervals if it can be computed, and otherwise nothing at all. */
  lemma CutExact(left: Range, right: Range, v: int)
    requires FirstOk(left) && FirstOk(right)
    ensures CanBeCut(left, right) ==> (Contains(Cut(left, right), v) <==> InFirst(left, v) && !InFirst(right, v))
    ensures !CanBeCut(left, right) ==> Cut(left, right) == []
  {}

  /** Different values have a name, under which ranges are kept; names need not be different, as values without
      a name all have the empty one. */
  datatype Operand = Constant(value: Int32) | Variable(id: nat, name: string)

  type Ranges = map<string, Range>

  /** Ranges have at least one interval; later ones are not looked at. */
  predicate RangesOk(ranges: Ranges) {
    forall x :: x in ranges ==> |ranges[x]| >= 2
  }

  function TryGetRange(name: string, ranges: Ranges): (r: Range)
    requires RangesOk(ranges)
    ensures |r| >= 2
  {
    if name in ranges then ranges[name] else [MINUS_INF, INF]
  }
}
