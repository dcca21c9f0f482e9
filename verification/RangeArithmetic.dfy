/** The range that value-range-analysis computes for the result of an operation, and when it is the least one. The
    analysed program and the analysis both compute in 32 bits: results that do not fit wrap around. */
module RangeArithmetic {
  import opened Intervals

  datatype Opcode = Add | Sub | Mul

  /** The exact result. */
  function Compute(op: Opcode, x: int, y: int): int {
    match op
    case Add => x + y
    case Sub => x - y
    case Mul => x * y
  }

  function Times(x: Int32, y: Int32): Int32 {
    Wrap(x * y)
  }

  /** The range of an operation on a range and a constant; on which side the constant is makes no difference. */
  function ConstantRange(op: Opcode, r: Range, c: Int32): (s: Range)
    requires |r| >= 2
    ensures |s| == 2
  {
    if op == Mul then [Min(Times(r[0], c), Times(r[1], c)), Max(Times(r[0], c), Times(r[1], c))]
    else [Wrap(Compute(op, r[0], c)), Wrap(Compute(op, r[1], c))]
  }

  /** The product of two ranges, which are those of one operand if same. */
  function ProductRange(same: bool, r: Range, s: Range): (t: Range)
    requires |r| >= 2 && |s| >= 2
    ensures |t| == 2
  {
    var ll, lh, hl, hh := Times(r[0], s[0]), Times(r[0], s[1]), Times(r[1], s[0]), Times(r[1], s[1]);
    if same then
      if r[0] <= 0 && r[1] <= 0 && s[0] <= 0 && s[1] <= 0 then [hh, ll]
      else if r[0] <= 0 && r[1] >= 0 && s[0] <= 0 && s[1] >= 0 then [0, Max(hh, ll)]
      else [ll, hh]
    else [Min(Min(ll, lh), Min(hl, hh)), Max(Max(ll, lh), Max(hl, hh))]
  }

  /** The range given to the result of an operation. */
  function BinaryRange(op: Opcode, a: Operand, b: Operand, ranges: Ranges): (r: Range)
    requires RangesOk(ranges)
    ensures |r| == 2
  {
    match (a, b)
    case (Constant(x), Constant(y)) => [Wrap(Compute(op, x, y)), Wrap(Compute(op, x, y))]
    case (Variable(_, name), Constant(y)) => ConstantRange(op, TryGetRange(name, ranges), y)
    case (Constant(x), Variable(_, name)) => ConstantRange(op, TryGetRange(name, ranges), x)
    case (Variable(i, n), Variable(j, m)) =>
      var r, s := TryGetRange(n, ranges), TryGetRange(m, ranges);
      match op
      case Add => [Wrap(Compute(Add, r[0], s[0])), Wrap(Compute(Add, r[1], s[1]))]
      case Sub =>
        if i == j then [Wrap(Compute(Sub, r[0], s[0])), Wrap(Compute(Sub, r[1], s[1]))]
        else [Wrap(Compute(Sub, r[0], s[1])), Wrap(Compute(Sub, r[1], s[0]))]
      case Mul => ProductRange(n == m, r, s)
  }

  // ----- What it should be -----

  /** The bounds of an operand. */
  function Bounds(a: Operand, ranges: Ranges): (r: Range)
    requires RangesOk(ranges)
    ensures |r| == 2
  {
    match a
    case Constant(x) => [x, x]
    case Variable(_, name) => TryGetRange(name, ranges)[..2]
  }

  /** The values two operands can have at the same time. */
  predicate CanBoth(a: Operand, b: Operand, ranges: Ranges, x: Int32, y: Int32)
    requires RangesOk(ranges)
  {
    && Contains(Bounds(a, ranges), x)
    && Contains(Bounds(b, ranges), y)
    && (SameValue(a, b) ==> x == y)
  }

  predicate SameValue(a: Operand, b: Operand) {
    a.Variable? && b.Variable? && a.id == b.id
  }

  /** r contains all results. */
  ghost predicate Sound(r: Range, op: Opcode, a: Operand, b: Operand, ranges: Ranges)
    requires RangesOk(ranges)
  {
    forall x: Int32, y: Int32 :: CanBoth(a, b, ranges, x, y) ==> Contains(r, Wrap(Compute(op, x, y)))
  }

  /** v is a result. */
  ghost predicate Attained(v: Int32, op: Opcode, a: Operand, b: Operand, ranges: Ranges)
    requires RangesOk(ranges)
  {
    exists x: Int32, y: Int32 :: CanBoth(a, b, ranges, x, y) && Wrap(Compute(op, x, y)) == v
  }

  /** r is the least interval that contains all results. */
  ghost predicate Least(r: Range, op: Opcode, a: Operand, b: Operand, ranges: Ranges)
    requires RangesOk(ranges)
  {
    |r| == 2 && Sound(r, op, a, b, ranges) && Attained(r[0], op, a, b, ranges) && Attained(r[1], op, a, b, ranges)
  }

  /** Recorded ranges of the operands are intervals, and a value has one name. */
  predicate OperandsOk(a: Operand, b: Operand, ranges: Ranges) {
    && RangesOk(ranges)
    && (a.Variable? ==> FirstOk(TryGetRange(a.name, ranges)))
    && (b.Variable? ==> FirstOk(TryGetRange(b.name, ranges)))
    && (SameValue(a, b) ==> a.name == b.name)
  }

  // ----- Sums and differences -----

  /** The least and the greatest exact result. */
  function Low(op: Opcode, a: Operand, b: Operand, ranges: Ranges): int
    requires RangesOk(ranges)
  {
    var r, s := Bounds(a, ranges), Bounds(b, ranges);
    if op == Sub && SameValue(a, b) then 0 else Compute(op, r[0], if op == Add then s[0] else s[1])
  }

  function High(op: Opcode, a: Operand, b: Operand, ranges: Ranges): int
    requires RangesOk(ranges)
  {
    var r, s := Bounds(a, ranges), Bounds(b, ranges);
    if op == Sub && SameValue(a, b) then 0 else Compute(op, r[1], if op == Add then s[1] else s[0])
  }

  /** All exact results lie between them. */
  lemma BetweenLowAndHigh(op: Opcode, a: Operand, b: Operand, ranges: Ranges, x: Int32, y: Int32)
    requires OperandsOk(a, b, ranges) && op != Mul && CanBoth(a, b, ranges, x, y)
    ensures Low(op, a, b, ranges) <= Compute(op, x, y) <= High(op, a, b, ranges)
  {}

  lemma AttainedBy(op: Opcode, a: Operand, b: Operand, ranges: Ranges, x: Int32, y: Int32)
    requires RangesOk(ranges) && CanBoth(a, b, ranges, x, y)
    ensures Attained(Wrap(Compute(op, x, y)), op, a, b, ranges)
  {}

  /** And every number between them is one, if even when a value is added to itself. */
  lemma AttainedBetween(op: Opcode, a: Operand, b: Operand, ranges: Ranges, v: int) returns (x: Int32, y: Int32)
    requires OperandsOk(a, b, ranges) && op != Mul && Low(op, a, b, ranges) <= v <= High(op, a, b, ranges)
    requires op == Add && SameValue(a, b) ==> v % 2 == 0
    ensures CanBoth(a, b, ranges, x, y) && Compute(op, x, y) == v
  {
    var r, s := Bounds(a, ranges), Bounds(b, ranges);
    if SameValue(a, b) {
      x := if op == Add then v / 2 else r[0];
      y := x;
    } else if op == Add {
      x := if v - s[0] <= r[1] then v - s[0] else r[1];
      y := v - x;
    } else {
      x := if v + s[1] <= r[1] then v + s[1] else r[1];
      y := x - v;
    }
  }

  /** Within one period wrapping keeps the order. */
  lemma WrapMonotone(lo: int, v: int, hi: int)
    requires lo <= v <= hi && Period(lo) == Period(hi)
    ensures Period(v) == Period(lo) && Wrap(lo) <= Wrap(v) <= Wrap(hi)
  {}

  lemma OnePeriodSound(op: Opcode, a: Operand, b: Operand, ranges: Ranges)
    requires OperandsOk(a, b, ranges) && op != Mul
    requires Period(Low(op, a, b, ranges)) == Period(High(op, a, b, ranges))
    ensures Sound([Wrap(Low(op, a, b, ranges)), Wrap(High(op, a, b, ranges))], op, a, b, ranges)
  {
    assert RangesOk(ranges);
    hide Low, High, Compute, Wrap, Period, OperandsOk;
    forall x: Int32, y: Int32 | CanBoth(a, b, ranges, x, y)
      ensures Contains([Wrap(Low(op, a, b, ranges)), Wrap(High(op, a, b, ranges))], Wrap(Compute(op, x, y)))
    {
      BetweenLowAndHigh(op, a, b, ranges, x, y);
      WrapMonotone(Low(op, a, b, ranges), Compute(op, x, y), High(op, a, b, ranges));
    }
  }

  lemma AttainedResult(op: Opcode, a: Operand, b: Operand, ranges: Ranges, v: int)
    requires OperandsOk(a, b, ranges) && op != Mul && Low(op, a, b, ranges) <= v <= High(op, a, b, ranges)
    requires op == Add && SameValue(a, b) ==> v % 2 == 0
    ensures Attained(Wrap(v), op, a, b, ranges)
  {
    assert RangesOk(ranges);
    hide Low, High, Compute, CanBoth, Wrap, OperandsOk;
    var x, y := AttainedBetween(op, a, b, ranges, v);
    AttainedBy(op, a, b, ranges, x, y);
  }

  lemma OnePeriodLeast(op: Opcode, a: Operand, b: Operand, ranges: Ranges)
    requires OperandsOk(a, b, ranges) && op != Mul
    requires Period(Low(op, a, b, ranges)) == Period(High(op, a, b, ranges))
    ensures Least([Wrap(Low(op, a, b, ranges)), Wrap(High(op, a, b, ranges))], op, a, b, ranges)
  {
    var lo, hi := Low(op, a, b, ranges), High(op, a, b, ranges);
    assert lo <= hi && (op == Add && SameValue(a, b) ==> lo % 2 == 0 && hi % 2 == 0);
    hide Low, High, Wrap, Period, Sound, Attained, OperandsOk;
    OnePeriodSound(op, a, b, ranges);
    AttainedResult(op, a, b, ranges, lo);
    AttainedResult(op, a, b, ranges, hi);
  }

  /** Results on both sides of the end of a period: an interval that contains them reaches from the least int to the
      greatest, or the greatest but one. */
  lemma CrossingIsWide(op: Opcode, a: Operand, b: Operand, ranges: Ranges, r: Range)
    requires OperandsOk(a, b, ranges) && op != Mul && |r| == 2 && Sound(r, op, a, b, ranges)
    requires Period(Low(op, a, b, ranges)) != Period(High(op, a, b, ranges))
    ensures r[0] == INT_MIN && r[1] >= INT_MAX - 1
    ensures !(op == Add && SameValue(a, b)) ==> r[1] == INT_MAX
  {
    var lo, hi := Low(op, a, b, ranges), High(op, a, b, ranges);
    assert RangesOk(ranges) && lo <= hi && (op == Add && SameValue(a, b) ==> lo % 2 == 0);
    hide Wrap, Period, Low, High, OperandsOk, Compute;
    var start, before := PeriodEnd(lo, hi, op == Add && SameValue(a, b));
    var x, y := AttainedBetween(op, a, b, ranges, start);
    var u, w := AttainedBetween(op, a, b, ranges, before);
    assert Contains(r, Wrap(start)) && Contains(r, Wrap(before));
  }

  /** The first number of a period, and the last before it, or the last even one. */
  lemma PeriodEnd(lo: int, hi: int, even: bool) returns (start: int, before: int)
    requires lo <= hi && Period(lo) != Period(hi) && (even ==> lo % 2 == 0)
    ensures lo <= before < start <= hi && Wrap(start) == INT_MIN
    ensures if even then Wrap(before) == INT_MAX - 1 && start % 2 == before % 2 == 0 else Wrap(before) == INT_MAX
  {
    var k := Period(lo) + 1;
    assert Period(hi) >= k;
    start := TWO32 * k - 0x8000_0000;
    before := if even then start - 2 else start - 1;
    hide Wrap, Period;
    WrapsTo(start, INT_MIN, k);
    WrapsTo(before, if even then INT_MAX - 1 else INT_MAX, k - 1);
    assert lo == Wrap(lo) + TWO32 * (k - 1) && hi == Wrap(hi) + TWO32 * Period(hi);
    assert start == 2 * (0x8000_0000 * k - 0x4000_0000);
  }

  lemma WrapsTo(v: int, w: Int32, k: int)
    requires v == w + TWO32 * k
    ensures Wrap(v) == w && Period(v) == k
  {
    assert v + 0x8000_0000 == TWO32 * k + (w + 0x8000_0000);
  }

  /** But bounds on both sides of the end of a period do not wrap to such an interval. */
  lemma WrappedIsNotWide(lo: int, hi: int)
    requires -TWO32 <= lo <= hi < TWO32 && Period(lo) != Period(hi)
    ensures !(Wrap(lo) == INT_MIN && Wrap(hi) >= INT_MAX - 1)
  {}

  /** A sum or a difference, other than a constant less a variable: the computed range is the least one exactly if its
      two exact bounds wrap around the same number of times. */
  lemma LinearLeastIff(op: Opcode, a: Operand, b: Operand, ranges: Ranges)
    requires OperandsOk(a, b, ranges) && op != Mul && !(op == Sub && a.Constant? && b.Variable?)
    ensures Least(BinaryRange(op, a, b, ranges), op, a, b, ranges)
        <==> Period(Low(op, a, b, ranges)) == Period(High(op, a, b, ranges))
  {
    var lo, hi, r := Low(op, a, b, ranges), High(op, a, b, ranges), BinaryRange(op, a, b, ranges);
    assert r == [Wrap(lo), Wrap(hi)];
    assert -TWO32 <= lo <= hi < TWO32;
    hide BinaryRange, Low, High, Sound, Attained, Wrap, Period;
    if Period(lo) == Period(hi) {
      OnePeriodLeast(op, a, b, ranges);
    } else {
      WrappedIsNotWide(lo, hi);
      if Least(r, op, a, b, ranges) { CrossingIsWide(op, a, b, ranges, r); }
    }
  }

  predicate IsMultiple(d: int) {
    d % TWO32 == 0
  }

  /** A constant less a variable is computed the wrong way round, as the variable less the constant. That is right only
      for a range with the constant in its middle, and for 0 less the range of all ints. */
  predicate RightByLuck(c: Int32, r: Range)
    requires |r| >= 2
  {
    || (IsMultiple(r[0] + r[1] - 2 * c) && Period(c - r[1]) == Period(c - r[0]))
    || (c == 0 && r[0] == INT_MIN && r[1] == INT_MAX)
  }

  lemma WrapsEqual(v: int, w: int)
    ensures Wrap(v) == Wrap(w) <==> IsMultiple(v - w)
  {
    assert v - w == Wrap(v) - Wrap(w) + TWO32 * (Period(v) - Period(w));
  }

  /** There is but one least interval. */
  lemma OneLeast(r: Range, s: Range, op: Opcode, a: Operand, b: Operand, ranges: Ranges)
    requires RangesOk(ranges) && |r| == 2 && Least(s, op, a, b, ranges)
    ensures Least(r, op, a, b, ranges) <==> r == s
  {
    if Least(r, op, a, b, ranges) {
      assert Contains(s, r[0]) && Contains(s, r[1]) && Contains(r, s[0]) && Contains(r, s[1]);
      assert r[0] == s[0] && r[1] == s[1];
    }
  }

  lemma FlippedShape(a: Operand, b: Operand, ranges: Ranges)
    requires OperandsOk(a, b, ranges) && a.Constant? && b.Variable?
    ensures var c, s := a.value, TryGetRange(b.name, ranges);
      && Low(Sub, a, b, ranges) == Compute(Sub, c, s[1])
      && High(Sub, a, b, ranges) == Compute(Sub, c, s[0])
      && BinaryRange(Sub, a, b, ranges) == [Wrap(Compute(Sub, s[0], c)), Wrap(Compute(Sub, s[1], c))]
  {}

  lemma FlippedBounds(c: Int32, low: Int32, high: Int32)
    ensures Wrap(Compute(Sub, low, c)) == Wrap(Compute(Sub, c, high)) &&
            Wrap(Compute(Sub, high, c)) == Wrap(Compute(Sub, c, low))
        <==> IsMultiple(low + high - 2 * c)
  {
    var apart := low + high - 2 * c;
    assert Compute(Sub, low, c) - Compute(Sub, c, high) == apart == Compute(Sub, high, c) - Compute(Sub, c, low);
    WrapsEqual(Compute(Sub, low, c), Compute(Sub, c, high));
    WrapsEqual(Compute(Sub, high, c), Compute(Sub, c, low));
  }

  lemma FlippedOnePeriod(a: Operand, b: Operand, ranges: Ranges)
    requires OperandsOk(a, b, ranges) && a.Constant? && b.Variable?
    requires Period(Low(Sub, a, b, ranges)) == Period(High(Sub, a, b, ranges))
    ensures var s := TryGetRange(b.name, ranges);
      Least(BinaryRange(Sub, a, b, ranges), Sub, a, b, ranges) <==> IsMultiple(s[0] + s[1] - 2 * a.value)
  {
    var s, r := TryGetRange(b.name, ranges), BinaryRange(Sub, a, b, ranges);
    assert RangesOk(ranges);
    hide BinaryRange, Low, High, Least, Wrap, Period, OperandsOk, Bounds, IsMultiple, Compute;
    FlippedShape(a, b, ranges);
    OnePeriodLeast(Sub, a, b, ranges);
    OneLeast(r, [Wrap(Low(Sub, a, b, ranges)), Wrap(High(Sub, a, b, ranges))], Sub, a, b, ranges);
    FlippedBounds(a.value, s[0], s[1]);
  }

  /** 0 less the range of all ints is that range, whichever way round. */
  lemma NegatedInts(a: Operand, b: Operand, ranges: Ranges)
    requires OperandsOk(a, b, ranges) && a == Constant(0) && b.Variable?
    requires Bounds(b, ranges) == [INT_MIN, INT_MAX]
    ensures Least(BinaryRange(Sub, a, b, ranges), Sub, a, b, ranges)
  {
    var r := BinaryRange(Sub, a, b, ranges);
    assert r == [INT_MIN, INT_MAX];
    assert Wrap(Compute(Sub, 0, INT_MIN)) == INT_MIN && Wrap(Compute(Sub, 0, -INT_MAX)) == INT_MAX;
    hide BinaryRange, Wrap;
    AttainedBy(Sub, a, b, ranges, 0, INT_MIN);
    AttainedBy(Sub, a, b, ranges, 0, -INT_MAX);
  }

  lemma FlippedCrossing(a: Operand, b: Operand, ranges: Ranges)
    requires OperandsOk(a, b, ranges) && a.Constant? && b.Variable?
    requires Period(a.value - TryGetRange(b.name, ranges)[1]) != Period(a.value - TryGetRange(b.name, ranges)[0])
    ensures Least(BinaryRange(Sub, a, b, ranges), Sub, a, b, ranges)
        <==> (a.value == 0 && Bounds(b, ranges) == [INT_MIN, INT_MAX])
  {
    var c: int := a.value;
    var s, r := Bounds(b, ranges), BinaryRange(Sub, a, b, ranges);
    assert r == [Wrap(s[0] - c), Wrap(s[1] - c)] && s == [s[0], s[1]];
    assert Low(Sub, a, b, ranges) == c - s[1] && High(Sub, a, b, ranges) == c - s[0];
    hide BinaryRange, Low, High, Sound, Attained, Wrap, Period;
    if c == 0 && s == [INT_MIN, INT_MAX] {
      NegatedInts(a, b, ranges);
    } else if Least(r, Sub, a, b, ranges) {
      CrossingIsWide(Sub, a, b, ranges, r);
      OnlyAllInts(a.value, s[0], s[1]);
    }
  }

  lemma OnlyAllInts(c: Int32, low: Int32, high: Int32)
    requires low <= high && Wrap(Compute(Sub, low, c)) == INT_MIN && Wrap(Compute(Sub, high, c)) == INT_MAX
    ensures c == 0 && low == INT_MIN && high == INT_MAX
  {}

  lemma FlippedLeastIff(a: Operand, b: Operand, ranges: Ranges)
    requires OperandsOk(a, b, ranges) && a.Constant? && b.Variable?
    ensures Least(BinaryRange(Sub, a, b, ranges), Sub, a, b, ranges) <==>
      RightByLuck(a.value, TryGetRange(b.name, ranges))
  {
    var c: int := a.value;
    var s := TryGetRange(b.name, ranges);
    if Period(c - s[1]) == Period(c - s[0]) {
      FlippedShape(a, b, ranges);
      hide Least, BinaryRange, Period;
      FlippedOnePeriod(a, b, ranges);
      if c == 0 && s[0] == INT_MIN && s[1] == INT_MAX { AllIntsCross(); }
    } else {
      hide Least, BinaryRange, Period;
      FlippedCrossing(a, b, ranges);
    }
  }

  lemma AllIntsCross()
    ensures Period(0 - INT_MAX) != Period(0 - INT_MIN)
  {}

  // ----- Products -----

  /** How often the product of the lower bounds wraps around. */
  function CornerPeriod(a: Operand, b: Operand, ranges: Ranges): int
    requires RangesOk(ranges)
  {
    Period(Compute(Mul, Bounds(a, ranges)[0], Bounds(b, ranges)[0]))
  }

  /** The products of all bounds wrap around the same number of times, in particular if none overflows. */
  predicate CornersTogether(a: Operand, b: Operand, ranges: Ranges)
    requires RangesOk(ranges)
  {
    var r, s := Bounds(a, ranges), Bounds(b, ranges);
    forall i, j :: 0 <= i < 2 && 0 <= j < 2 ==> Period(Compute(Mul, r[i], s[j])) == CornerPeriod(a, b, ranges)
  }

  lemma MulBetween(x: int, a: int, b: int, c: int)
    requires a <= x <= b
    ensures a * c <= x * c <= b * c || b * c <= x * c <= a * c
  {
    if c >= 0 {
      assert (x - a) * c >= 0 && (b - x) * c >= 0;
    } else {
      assert (x - a) * c <= 0 && (b - x) * c <= 0;
    }
  }

  /** A range and a constant, when the bounds of the result wrap around equally often: it contains every result. */
  lemma ConstantRangeContains(op: Opcode, r: Range, c: Int32, x: Int32)
    requires |r| >= 2 && r[0] <= x <= r[1] && Period(Compute(op, r[0], c)) == Period(Compute(op, r[1], c))
    ensures Contains(ConstantRange(op, r, c), Wrap(Compute(op, x, c)))
  {
    var low, high, v := Compute(op, r[0], c), Compute(op, r[1], c), Compute(op, x, c);
    if op == Mul { MulBetween(x, r[0], r[1], c); }
    assert low <= v <= high || high <= v <= low;
    assert op == Mul ==> Times(r[0], c) == Wrap(low) && Times(r[1], c) == Wrap(high);
    hide Wrap, Period, Compute, Times;
    if low <= v <= high { WrapMonotone(low, v, high); } else { WrapMonotone(high, v, low); }
  }

  /** Products of values lie between products of bounds. */
  lemma FourCorners(a: int, b: int, c: int, d: int, x: int, y: int, low: int, high: int)
    requires a <= x <= b && c <= y <= d
    requires low <= a * c <= high && low <= a * d <= high && low <= b * c <= high && low <= b * d <= high
    ensures low <= x * y <= high
  {
    MulBetween(x, a, b, y);
    MulBetween(y, c, d, a);
    MulBetween(y, c, d, b);
  }

  lemma SquareMonotone(a: int, b: int)
    requires 0 <= a <= b || b <= a <= 0
    ensures 0 <= a * a <= b * b
  {
    assert b * b - a * a == (b - a) * (b + a);
    assert (b - a) * (b + a) >= 0;
  }

  /** Squares lie between the squares of the bounds, or 0 and the greater of these. */
  lemma Squares(a: int, b: int, x: int)
    requires a <= x <= b
    ensures 0 <= x * x
    ensures b <= 0 ==> b * b <= x * x <= a * a
    ensures a >= 0 ==> a * a <= x * x <= b * b
    ensures x * x <= a * a || x * x <= b * b
  {
    SquareMonotone(0, x);
    if x >= 0 { SquareMonotone(x, b); } else { SquareMonotone(x, a); }
    if b <= 0 { SquareMonotone(b, x); }
    if a >= 0 { SquareMonotone(a, x); }
  }

  lemma SamePeriodBetween(lo: int, v: int, hi: int, k: int)
    requires lo <= v <= hi && Period(lo) == k == Period(hi)
    ensures Wrap(v) == v - TWO32 * k
  {
    WrapMonotone(lo, v, hi);
  }

  /** If all corners wrap around equally often, so do all products. */
  lemma ProductsTogether(a: Operand, b: Operand, ranges: Ranges, x: Int32, y: Int32)
    requires OperandsOk(a, b, ranges) && CornersTogether(a, b, ranges)
    requires Contains(Bounds(a, ranges), x) && Contains(Bounds(b, ranges), y)
    ensures Wrap(Compute(Mul, x, y)) == Compute(Mul, x, y) - TWO32 * CornerPeriod(a, b, ranges)
  {
    var r, s, k := Bounds(a, ranges), Bounds(b, ranges), CornerPeriod(a, b, ranges);
    assert Period(Compute(Mul, r[0], s[1])) == k && Period(Compute(Mul, r[1], s[0])) == k;
    assert Period(Compute(Mul, r[1], s[1])) == k;
    hide CornersTogether, Period, Wrap;
    var lo, hi := ExtremeCorners(r[0], r[1], s[0], s[1], k);
    FourCorners(r[0], r[1], s[0], s[1], x, y, lo, hi);
    SamePeriodBetween(lo, Compute(Mul, x, y), hi, k);
  }

  lemma ExtremeCorners(a: int, b: int, c: int, d: int, k: int) returns (lo: int, hi: int)
    requires Period(a * c) == k && Period(a * d) == k && Period(b * c) == k && Period(b * d) == k
    ensures Period(lo) == k == Period(hi)
    ensures lo <= a * c <= hi && lo <= a * d <= hi && lo <= b * c <= hi && lo <= b * d <= hi
  {
    hide Period;
    lo, hi := a * c, a * c;
    if a * d < lo { lo := a * d; } else if a * d > hi { hi := a * d; }
    if b * c < lo { lo := b * c; } else if b * c > hi { hi := b * c; }
    if b * d < lo { lo := b * d; } else if b * d > hi { hi := b * d; }
  }

  lemma CornerProduct(a: Operand, b: Operand, ranges: Ranges, i: nat, j: nat)
    requires OperandsOk(a, b, ranges) && CornersTogether(a, b, ranges) && i < 2 && j < 2
    ensures var r, s := Bounds(a, ranges), Bounds(b, ranges);
      Times(r[i], s[j]) == Compute(Mul, r[i], s[j]) - TWO32 * CornerPeriod(a, b, ranges)
  {
    ProductsTogether(a, b, ranges, Bounds(a, ranges)[i], Bounds(b, ranges)[j]);
  }

  lemma DifferentProductSound(a: Operand, b: Operand, ranges: Ranges)
    requires OperandsOk(a, b, ranges) && CornersTogether(a, b, ranges)
    requires a.Variable? && b.Variable? ==> a.name != b.name
    ensures Sound(BinaryRange(Mul, a, b, ranges), Mul, a, b, ranges)
  {
    var r, s, t := Bounds(a, ranges), Bounds(b, ranges), BinaryRange(Mul, a, b, ranges);
    CornerProduct(a, b, ranges, 0, 0);
    CornerProduct(a, b, ranges, 0, 1);
    CornerProduct(a, b, ranges, 1, 0);
    CornerProduct(a, b, ranges, 1, 1);
    CornersOfProduct(a, b, ranges);
    var corners := [Times(r[0], s[0]), Times(r[0], s[1]), Times(r[1], s[0]), Times(r[1], s[1])];
    assert t[0] <= corners[0] <= t[1] && t[0] <= corners[1] <= t[1];
    assert t[0] <= corners[2] <= t[1] && t[0] <= corners[3] <= t[1];
    var k := TWO32 * CornerPeriod(a, b, ranges);
    hide BinaryRange, CornersTogether, OperandsOk, Times, Wrap, CornerPeriod;
    forall x: Int32, y: Int32 | CanBoth(a, b, ranges, x, y) ensures Contains(t, Wrap(Compute(Mul, x, y))) {
      FourCorners(r[0], r[1], s[0], s[1], x, y, t[0] + k, t[1] + k);
      ProductsTogether(a, b, ranges, x, y);
    }
  }

  /** The product of different values, or of constants. */
  lemma DifferentProductLeast(a: Operand, b: Operand, ranges: Ranges)
    requires OperandsOk(a, b, ranges) && CornersTogether(a, b, ranges)
    requires a.Variable? && b.Variable? ==> a.name != b.name
    ensures Least(BinaryRange(Mul, a, b, ranges), Mul, a, b, ranges)
  {
    var r, s := Bounds(a, ranges), Bounds(b, ranges);
    CornersOfProduct(a, b, ranges);
    hide BinaryRange, CornersTogether, Sound, Wrap;
    DifferentProductSound(a, b, ranges);
    AttainedBy(Mul, a, b, ranges, r[0], s[0]);
    AttainedBy(Mul, a, b, ranges, r[0], s[1]);
    AttainedBy(Mul, a, b, ranges, r[1], s[0]);
    AttainedBy(Mul, a, b, ranges, r[1], s[1]);
  }

  /** The computed bounds are the least and the greatest of the four. */
  lemma CornersOfProduct(a: Operand, b: Operand, ranges: Ranges)
    requires OperandsOk(a, b, ranges) && (a.Variable? && b.Variable? ==> a.name != b.name)
    ensures var r, s, t := Bounds(a, ranges), Bounds(b, ranges), BinaryRange(Mul, a, b, ranges);
      var corners := [Times(r[0], s[0]), Times(r[0], s[1]), Times(r[1], s[0]), Times(r[1], s[1])];
      t[0] in corners && t[1] in corners && forall i :: 0 <= i < 4 ==> t[0] <= corners[i] <= t[1]
  {
    assert forall x: Int32, y: Int32 :: Times(x, y) == Times(y, x);
    hide Times, OperandsOk;
  }

  /** The range for two operands with one name, when no corner wraps around more often than another. */
  lemma NamesakeRange(a: Operand, b: Operand, ranges: Ranges)
    requires OperandsOk(a, b, ranges) && CornersTogether(a, b, ranges)
    requires a.Variable? && b.Variable? && a.name == b.name
    ensures var r, k := Bounds(a, ranges), CornerPeriod(a, b, ranges);
      var ll, hh := Times(r[0], r[0]), Times(r[1], r[1]);
      && ll == Compute(Mul, r[0], r[0]) - TWO32 * k && hh == Compute(Mul, r[1], r[1]) - TWO32 * k
      && (r[0] <= 0 <= r[1] ==> k == 0)
      && BinaryRange(Mul, a, b, ranges)
           == if r[1] <= 0 then [hh, ll] else if r[0] <= 0 then [0, Max(hh, ll)] else [ll, hh]
  {
    var r := Bounds(a, ranges);
    assert BinaryRange(Mul, a, b, ranges) == ProductRange(true, r, r);
    hide BinaryRange, CornersTogether, OperandsOk, Wrap, Times;
    CornerProduct(a, b, ranges, 0, 0);
    CornerProduct(a, b, ranges, 1, 1);
    if r[0] <= 0 <= r[1] {
      ProductsTogether(a, b, ranges, 0, 0);
      WrapFits(0);
    }
  }

  lemma SquareSound(a: Operand, b: Operand, ranges: Ranges)
    requires OperandsOk(a, b, ranges) && CornersTogether(a, b, ranges) && SameValue(a, b)
    ensures Sound(BinaryRange(Mul, a, b, ranges), Mul, a, b, ranges)
  {
    var r, t := Bounds(a, ranges), BinaryRange(Mul, a, b, ranges);
    NamesakeRange(a, b, ranges);
    hide BinaryRange, CornersTogether, CornerPeriod, Wrap, Times, OperandsOk;
    forall x: Int32, y: Int32 | CanBoth(a, b, ranges, x, y) ensures Contains(t, Wrap(Compute(Mul, x, y))) {
      Squares(r[0], r[1], x);
      ProductsTogether(a, b, ranges, x, y);
    }
  }

  /** The square of a value. */
  lemma SquareLeast(a: Operand, b: Operand, ranges: Ranges)
    requires OperandsOk(a, b, ranges) && CornersTogether(a, b, ranges) && SameValue(a, b)
    ensures Least(BinaryRange(Mul, a, b, ranges), Mul, a, b, ranges)
  {
    var r := Bounds(a, ranges);
    NamesakeRange(a, b, ranges);
    hide BinaryRange, CornersTogether, CornerPeriod, Sound, Attained, OperandsOk;
    SquareSound(a, b, ranges);
    WrapFits(0);
    hide Wrap;
    AttainedBy(Mul, a, b, ranges, r[0], r[0]);
    AttainedBy(Mul, a, b, ranges, r[1], r[1]);
    if r[0] <= 0 <= r[1] { AttainedBy(Mul, a, b, ranges, 0, 0); }
  }

  /** The ranges of sums and differences that are computed as they should be. */
  predicate ComputedRight(op: Opcode, a: Operand, b: Operand, ranges: Ranges)
    requires RangesOk(ranges)
  {
    if op == Sub && a.Constant? && b.Variable? then RightByLuck(a.value, TryGetRange(b.name, ranges))
    else Period(Low(op, a, b, ranges)) == Period(High(op, a, b, ranges))
  }

  /** The range of a sum or a difference is the least interval of its 32-bit results exactly if its exact bounds wrap
      around the same number of times, and a constant is not on the left of a minus, but for two lucky cases. The range
      of a product is the least one if all its corners wrap around equally often, in particular if none overflows. */
  lemma BinaryLeastIff(op: Opcode, a: Operand, b: Operand, ranges: Ranges)
    requires OperandsOk(a, b, ranges)
    requires op == Mul ==> CornersTogether(a, b, ranges)
    requires op == Mul && a.Variable? && b.Variable? && a.name == b.name ==> a.id == b.id
    ensures Least(BinaryRange(op, a, b, ranges), op, a, b, ranges) <==> (op != Mul ==> ComputedRight(op, a, b, ranges))
  {
    hide Least, BinaryRange, CornersTogether, OperandsOk, RightByLuck, Period, Low, High;
    if op != Mul {
      if op == Sub && a.Constant? && b.Variable? {
        FlippedLeastIff(a, b, ranges);
      } else {
        LinearLeastIff(op, a, b, ranges);
      }
    } else if SameValue(a, b) {
      SquareLeast(a, b, ranges);
    } else {
      DifferentProductLeast(a, b, ranges);
    }
  }

  /** The product of two variables of which nothing is recorded: its corners overflow, and its range misses results. */
  lemma UnrecordedProductOverflows(a: Operand, b: Operand)
    requires a.Variable? && b.Variable? && a.name != b.name && a.id != b.id
    ensures !CornersTogether(a, b, map[]) && !Sound(BinaryRange(Mul, a, b, map[]), Mul, a, b, map[])
  {
    InfinityTimes();
    assert Bounds(a, map[]) == [MINUS_INF, INF] == Bounds(b, map[]);
    assert TryGetRange(a.name, map[]) == [MINUS_INF, INF] == TryGetRange(b.name, map[]);
    hide Times, Wrap, Period, Compute;
    var t := BinaryRange(Mul, a, b, map[]);
    assert t == [-0xfff_ffff, 0xfff_ffff];
    var x: Int32 := 0x4000;
    assert CanBoth(a, b, map[], x, x);
    assert !Contains(t, Wrap(Compute(Mul, x, x)));
  }

  lemma InfinityTimes()
    ensures Times(INF, INF) == Times(MINUS_INF, MINUS_INF) == -0xfff_ffff
    ensures Times(INF, MINUS_INF) == Times(MINUS_INF, INF) == 0xfff_ffff
    ensures Period(Compute(Mul, MINUS_INF, MINUS_INF)) != Period(Compute(Mul, MINUS_INF, INF))
    ensures Wrap(Compute(Mul, 0x4000, 0x4000)) == 0x1000_0000
  {
    assert Compute(Mul, INF, INF) == 0x3f_ffff_f000_0001 == Compute(Mul, MINUS_INF, MINUS_INF);
    assert Compute(Mul, MINUS_INF, INF) == -0x3f_ffff_f000_0001;
  }

  /** The product of two values that share a name but are not the same, as all values without a name do: the result
      is a square's range, which contains all products exactly if the range does not have 0 inside. */
  lemma NamesakesProduct(i: nat, j: nat, name: string, ranges: Ranges)
    requires RangesOk(ranges) && FirstOk(TryGetRange(name, ranges)) && i != j
    requires CornersTogether(Variable(i, name), Variable(j, name), ranges)
    ensures var a, b, r := Variable(i, name), Variable(j, name), TryGetRange(name, ranges);
      Sound(BinaryRange(Mul, a, b, ranges), Mul, a, b, ranges) <==> !(r[0] < 0 < r[1])
  {
    var r := TryGetRange(name, ranges);
    if r[0] < 0 < r[1] { NamesakesAcrossZero(i, j, name, ranges); } else { NamesakesOfOneSign(i, j, name, ranges); }
  }

  lemma NamesakesAcrossZero(i: nat, j: nat, name: string, ranges: Ranges)
    requires RangesOk(ranges) && FirstOk(TryGetRange(name, ranges)) && i != j
    requires CornersTogether(Variable(i, name), Variable(j, name), ranges)
    requires TryGetRange(name, ranges)[0] < 0 < TryGetRange(name, ranges)[1]
    ensures var a, b := Variable(i, name), Variable(j, name);
      !Sound(BinaryRange(Mul, a, b, ranges), Mul, a, b, ranges)
  {
    var a, b, r := Variable(i, name), Variable(j, name), TryGetRange(name, ranges);
    var t := BinaryRange(Mul, a, b, ranges);
    assert t[0] == 0;
    assert CanBoth(a, b, ranges, r[0], r[1]);
    hide BinaryRange, CanBoth;
    ProductsTogether(a, b, ranges, r[0], r[1]);
    assert Compute(Mul, r[0], r[1]) < 0;
    assert !Contains(t, Wrap(Compute(Mul, r[0], r[1])));
  }

  lemma NamesakesOfOneSign(i: nat, j: nat, name: string, ranges: Ranges)
    requires RangesOk(ranges) && FirstOk(TryGetRange(name, ranges)) && i != j
    requires CornersTogether(Variable(i, name), Variable(j, name), ranges)
    requires !(TryGetRange(name, ranges)[0] < 0 < TryGetRange(name, ranges)[1])
    ensures var a, b := Variable(i, name), Variable(j, name);
      Sound(BinaryRange(Mul, a, b, ranges), Mul, a, b, ranges)
  {
    var a, b, r := Variable(i, name), Variable(j, name), TryGetRange(name, ranges);
    var t := BinaryRange(Mul, a, b, ranges);
    NamesakeRange(a, b, ranges);
    SquareMonotone(0, r[0]);
    SquareMonotone(0, r[1]);
    hide BinaryRange, CornersTogether, CornerPeriod, Wrap, Times, RangesOk;
    forall x: Int32, y: Int32 | CanBoth(a, b, ranges, x, y) ensures Contains(t, Wrap(Compute(Mul, x, y))) {
      ProductsTogether(a, b, ranges, x, y);
      OneSign(r[0], r[1], x, y);
    }
  }

  lemma OneSign(a: int, b: int, x: int, y: int)
    requires a <= x <= b && a <= y <= b && !(a < 0 < b)
    ensures if a >= 0 then a * a <= x * y <= b * b else b * b <= x * y <= a * a
  {
    if a >= 0 { Positive(a, b, x, y); } else { Positive(-b, -a, -x, -y); }
  }

  lemma Positive(a: int, b: int, x: int, y: int)
    requires 0 <= a <= x <= b && a <= y <= b
    ensures a * a <= x * y <= b * b
  {
    assert x * y - a * a == (x - a) * y + a * (y - a);
    assert b * b - x * y == (b - x) * y + b * (b - y);
    assert (x - a) * y >= 0 && a * (y - a) >= 0 && (b - x) * y >= 0 && b * (b - y) >= 0;
  }
}
