/** What value-range-analysis concludes about the operands of a comparison on each of the two edges that leave
    the block. */
module BranchRanges {
  import opened Intervals

  datatype Predicate = EQ | NE | UGT | UGE | ULT | ULE | SGT | SGE | SLT | SLE

  /** How the analysis reads a predicate: it does not tell unsigned comparisons from signed ones. */
  datatype Relation = Equal | Different | Greater | AtLeast | Less | AtMost

  function Reading(pred: Predicate): Relation {
    match pred
    case EQ => Equal
    case NE => Different
    case UGT => Greater
    case SGT => Greater
    case UGE => AtLeast
    case SGE => AtLeast
    case ULT => Less
    case SLT => Less
    case ULE => AtMost
    case SLE => AtMost
  }

  function Mirrored(rel: Relation): Relation {
    match rel
    case Greater => Less
    case Less => Greater
    case AtLeast => AtMost
    case AtMost => AtLeast
    case _ => rel
  }

  predicate Stands(rel: Relation, x: int, y: int) {
    match rel
    case Equal => x == y
    case Different => x != y
    case Greater => x > y
    case AtLeast => x >= y
    case Less => x < y
    case AtMost => x <= y
  }

  function Unsigned(v: Int32): int {
    if v < 0 then v + TWO32 else v
  }

  /** What the comparison computes on 32-bit values. */
  predicate Holds(pred: Predicate, x: Int32, y: Int32) {
    match pred
    case UGT => Unsigned(x) > Unsigned(y)
    case UGE => Unsigned(x) >= Unsigned(y)
    case ULT => Unsigned(x) < Unsigned(y)
    case ULE => Unsigned(x) <= Unsigned(y)
    case _ => Stands(Reading(pred), x, y)
  }

  /** For one edge: the range to record, or that the edge cannot be taken, or neither. */
  datatype Edge = Record(range: Range) | Unreachable | Nothing

  /** The values of a range that a bound leaves, on an edge that is unreachable if there are none. */
  function Bounded(bound: Range, range: Range): Edge
    requires |bound| >= 2 && |range| >= 2
  {
    var i := Intersect(bound, range);
    if i == [] then Unreachable else Record(i)
  }

  /** The edges of a comparison of a variable with a constant, true edge first. */
  function ConstantEdges(rel: Relation, known: bool, range: Range, c: Int32): (Edge, Edge)
    requires |range| >= 2
  {
    match rel
    case Equal =>
      if !known then (Nothing, Nothing)
      else
        var other := Cut(range, [c, c]);
        (Bounded(range, [c, c]), Record(if other != [] then other else range))
    case Different =>
      var other := Cut(range, [c, c]);
      (Record(if other != [] then other else range), Bounded(range, [c, c]))
    case Greater => (Bounded([Successor(c), INF], range), Bounded([MINUS_INF, c], range))
    case Less => (Bounded([MINUS_INF, Predecessor(c)], range), Bounded([c, INF], range))
    case AtLeast => (Bounded([c, INF], range), Bounded([MINUS_INF, Predecessor(c)], range))
    case AtMost => (Bounded([MINUS_INF, c], range), Bounded([Successor(c), INF], range))
  }

  predicate Excluded(edge: Edge, v: int) {
    match edge
    case Record(range) => !Contains(range, v)
    case Unreachable => true
    case Nothing => false
  }

  predicate InBounds(v: int) {
    MINUS_INF <= v <= INF
  }

  /** Nothing is recorded, or the whole range is, for the values that are not the constant. */
  predicate WholeKept(rel: Relation, known: bool, range: Range, c: Int32, v: int)
    requires |range| >= 2
  {
    || (rel == Equal && !known)
    || ((rel == Equal || rel == Different) && v != c && (!CanBeCut(range, [c, c]) || (range[0] == c == range[1])))
  }

  /** A value within the bounds is let on the edge it takes exactly if it is in the first interval of the range, or the
      whole range is kept there: values of a second interval are lost otherwise. */
  lemma ConstantEdgesSound(rel: Relation, known: bool, range: Range, c: Int32, v: Int32)
    requires Contains(range, v) && InBounds(v)
    ensures var (onTrue, onFalse) := ConstantEdges(rel, known, range, c);
      (if Stands(rel, v, c) then !Excluded(onTrue, v) else !Excluded(onFalse, v))
      <==> InFirst(range, v) || WholeKept(rel, known, range, c, v)
  {
    if rel == Equal || rel == Different {
      if FirstOk(range) { CutExact(range, [c, c], v); }
      IntersectExact(range, [c, c], v);
      hide Cut, Intersect, CanBeCut, Difference;
    } else {
      OrderEdgesKeep(rel, known, range, c, v);
    }
  }

  lemma BoundedExact(bound: Range, range: Range, v: int)
    requires |bound| >= 2 && |range| >= 2
    ensures Excluded(Bounded(bound, range), v) <==> !(InFirst(bound, v) && InFirst(range, v))
  {}

  lemma OrderEdgesKeep(rel: Relation, known: bool, range: Range, c: Int32, v: Int32)
    requires Contains(range, v) && InBounds(v) && rel != Equal && rel != Different
    ensures var (onTrue, onFalse) := ConstantEdges(rel, known, range, c);
      (if Stands(rel, v, c) then !Excluded(onTrue, v) else !Excluded(onFalse, v)) <==> InFirst(range, v)
  {}

  /** So for if (x != 5) if (x < 3) where nothing is known of x: the first comparison leaves two intervals, and the
      second one keeps 7 from its false edge, which x = 7 takes. */
  lemma SecondIsLost()
    ensures var two := [MINUS_INF, 4, 6, INF];
      && ConstantEdges(Different, false, [MINUS_INF, INF], 5).0 == Record(two)
      && ConstantEdges(Less, true, two, 3) == (Record([MINUS_INF, 2]), Record([3, 4]))
      && Contains(two, 7) && !Stands(Less, 7, 3) && Excluded(ConstantEdges(Less, true, two, 3).1, 7)
  {}

  /** On its open side a recorded range ends at the bound taken for infinity. */
  predicate BeforeInfinity(rel: Relation, v: int) {
    if rel == Greater || rel == AtLeast then v <= INF else v >= MINUS_INF
  }

  /** A comparison of order with a constant that has neighbours keeps every other value from the edge, and of those that
      take it just the ones beyond infinity. */
  lemma ConstantEdgesTight(rel: Relation, known: bool, range: Range, c: Int32, v: Int32)
    requires FirstOk(range) && INT_MIN < c < INT_MAX && rel != Equal && rel != Different
    ensures var (onTrue, onFalse) := ConstantEdges(rel, known, range, c);
      && (Excluded(onTrue, v) <==> !(InFirst(range, v) && Stands(rel, v, c) && BeforeInfinity(rel, v)))
      && (Excluded(onFalse, v) <==> !(InFirst(range, v) && !Stands(rel, v, c) && BeforeInfinity(Mirrored(rel), v)))
  {
    hide Bounded, Excluded;
    BoundedExact([c, INF], range, v);
    BoundedExact([c + 1, INF], range, v);
    BoundedExact([MINUS_INF, c], range, v);
    BoundedExact([MINUS_INF, c - 1], range, v);
  }

  /** So does one of equality, but for a range whose first interval is just the constant, or cannot be cut: then the
      edge of other values keeps the whole range, with a second interval. */
  lemma EqualityEdgesTight(rel: Relation, range: Range, c: Int32, v: Int32)
    requires FirstOk(range) && (rel == Equal || rel == Different)
    ensures var (onTrue, onFalse) := ConstantEdges(rel, true, range, c);
      var (same, other) := if rel == Equal then (onTrue, onFalse) else (onFalse, onTrue);
      && (Excluded(same, v) <==> !(InFirst(range, v) && v == c))
      && (Excluded(other, v) <==>
            if range[0] == c == range[1] || !CanBeCut(range, [c, c]) then !Contains(range, v)
            else !(InFirst(range, v) && v != c))
  {
    CutExact(range, [c, c], v);
  }

  /** Some value of the first interval, not beyond infinity, stands in the relation to the constant. */
  predicate SomeStand(rel: Relation, range: Range, c: Int32)
    requires |range| >= 2 && rel != Equal && rel != Different
  {
    match rel
    case Greater => c < range[1] && c < INF && range[0] <= INF
    case AtLeast => c <= range[1] && c <= INF && range[0] <= INF
    case Less => range[0] < c && MINUS_INF < c && MINUS_INF <= range[1]
    case AtMost => range[0] <= c && MINUS_INF <= c && MINUS_INF <= range[1]
  }

  lemma SomeStandMeans(rel: Relation, range: Range, c: Int32)
    requires FirstOk(range) && rel != Equal && rel != Different
    ensures SomeStand(rel, range, c)
      <==> exists v: Int32 :: InFirst(range, v) && Stands(rel, v, c) && BeforeInfinity(rel, v)
  {
    var up := rel == Greater || rel == AtLeast;
    var v := if up then Min(range[1], INF) else Max(range[0], MINUS_INF);
    assert SomeStand(rel, range, c) ==> InFirst(range, v) && Stands(rel, v, c) && BeforeInfinity(rel, v);
  }

  /** The false edge of a comparison of order is marked just if no value of the first interval
      takes it. */
  lemma FalseEdgeReachable(rel: Relation, known: bool, range: Range, c: Int32)
    requires FirstOk(range) && INT_MIN < c < INT_MAX && rel != Equal && rel != Different
    ensures ConstantEdges(rel, known, range, c).1 != Unreachable <==> SomeStand(Negated(rel), range, c)
  {}

  // ----- Two variables -----

  /** When both operands are the same value it is on either side, and a comparison of less is taken for one of greater
      with the sides exchanged. */
  function Upward(rel: Relation): Relation {
    match rel
    case Less => Greater
    case AtMost => AtLeast
    case _ => rel
  }

  /** The bound that x has on the true and on the false edge of a comparison with a value in range. */
  function TrueBound(rel: Relation, range: Range): Range
    requires |range| >= 2 && rel != Equal && rel != Different
  {
    match rel
    case Greater => [Successor(range[0]), INF]
    case Less => [MINUS_INF, Predecessor(range[1])]
    case AtLeast => [range[0], INF]
    case AtMost => [MINUS_INF, range[1]]
  }

  function FalseBound(rel: Relation, range: Range): Range
    requires |range| >= 2 && rel != Equal && rel != Different
  {
    match rel
    case Greater => [MINUS_INF, range[1]]
    case Less => [range[0], INF]
    case AtLeast => [MINUS_INF, Predecessor(range[1])]
    case AtMost => [Successor(range[0]), INF]
  }

  /** An edge is never marked unreachable here. */
  function Noted(bound: Range, range: Range): Edge
    requires |bound| == 2 && |range| >= 2
  {
    var i := Intersect(bound, range);
    if i == [] then Nothing else Record(i)
  }

  /** What is concluded about one variable from the range of the other. */
  function VariableEdges(rel: Relation, range: Range, other: Range): (Edge, Edge)
    requires |range| >= 2 && |other| >= 2
  {
    if rel == Equal || rel == Different then (Nothing, Nothing)
    else (Noted(TrueBound(rel, other), range), Noted(FalseBound(rel, other), range))
  }

  /** A variable is not kept from a value it can have on the edge taken. */
  lemma VariableEdgesKeep(rel: Relation, range: Range, other: Range, x: Int32, y: Int32)
    requires InFirst(range, x) && InFirst(other, y) && InBounds(x)
    ensures var (onTrue, onFalse) := VariableEdges(rel, range, other);
      if Stands(rel, x, y) then !Excluded(onTrue, x) else !Excluded(onFalse, x)
  {}

  /** Neither is. */
  lemma VariableEdgesSound(rel: Relation, left: Range, right: Range, x: Int32, y: Int32)
    requires InFirst(left, x) && InFirst(right, y) && InBounds(x) && InBounds(y)
    ensures var ((trueLeft, falseLeft), (trueRight, falseRight)) :=
        (VariableEdges(rel, left, right), VariableEdges(Mirrored(rel), right, left));
      if Stands(rel, x, y) then !Excluded(trueLeft, x) && !Excluded(trueRight, y)
      else !Excluded(falseLeft, x) && !Excluded(falseRight, y)
  {
    assert Stands(Mirrored(rel), y, x) <==> Stands(rel, x, y);
    hide VariableEdges, Excluded, Stands;
    VariableEdgesKeep(rel, left, right, x, y);
    VariableEdgesKeep(Mirrored(rel), right, left, y, x);
  }

  function Negated(rel: Relation): Relation {
    match rel
    case Equal => Different
    case Different => Equal
    case Greater => AtMost
    case AtMost => Greater
    case Less => AtLeast
    case AtLeast => Less
  }

  /** The value x of a first interval, not beyond infinity, stands in the relation to some value of the other one. */
  ghost predicate CanTake(rel: Relation, range: Range, other: Range, x: Int32) {
    InFirst(range, x) && BeforeInfinity(rel, x) && exists y: Int32 :: InFirst(other, y) && Stands(rel, x, y)
  }

  /** What is recorded are exactly the values that can take the edge, and nothing is recorded only if none can. */
  predicate Tight(edge: Edge, x: Int32, possible: bool) {
    match edge
    case Record(r) => Contains(r, x) <==> possible
    case Nothing => !possible
    case Unreachable => false
  }

  lemma CanTakeBound(rel: Relation, range: Range, other: Range, x: Int32)
    requires FirstOk(range) && FirstOk(other) && INT_MIN < other[1] && other[0] < INT_MAX
    requires rel != Equal && rel != Different
    ensures CanTake(rel, range, other, x) <==> InFirst(range, x) && InFirst(TrueBound(rel, other), x)
  {
    var y := if rel == Greater || rel == AtLeast then other[0] else other[1];
    assert InFirst(other, y);
    if InFirst(range, x) && InFirst(TrueBound(rel, other), x) { assert Stands(rel, x, y); }
  }

  /** The edges of a comparison of order of two variables are as narrow as they can be. */
  lemma VariableEdgesTight(rel: Relation, range: Range, other: Range, x: Int32)
    requires FirstOk(range) && FirstOk(other) && INT_MIN < other[1] && other[0] < INT_MAX
    requires rel != Equal && rel != Different
    ensures var (onTrue, onFalse) := VariableEdges(rel, range, other);
      && Tight(onTrue, x, CanTake(rel, range, other, x))
      && Tight(onFalse, x, CanTake(Negated(rel), range, other, x))
  {
    CanTakeBound(rel, range, other, x);
    CanTakeBound(Negated(rel), range, other, x);
    IntersectExact(TrueBound(rel, other), range, x);
    IntersectExact(FalseBound(rel, other), range, x);
  }

  /** An unsigned comparison is read as what it computes exactly if both operands have the same sign. */
  lemma UnsignedMisread(pred: Predicate, x: Int32, y: Int32)
    requires (pred.UGT? || pred.UGE? || pred.ULT? || pred.ULE?)
    ensures (Holds(pred, x, y) <==> Stands(Reading(pred), x, y)) <==> (x < 0 <==> y < 0)
  {}
}
