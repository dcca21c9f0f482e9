/** What value-range-analysis records when several values go by one name, as all values without a name do: whether it
    is still true of every state that takes an edge. */
module SharedNames {
  import opened Intervals
  import opened BranchRanges
  import opened RangeArithmetic
  import opened RangeVisitor

  /** The target of the edge taken sees only what is recorded for that edge. */
  lemma TargetAfterOne(first: map<nat, Info>, br: Branch, cs: seq<(string, (Edge, Edge))>, taken: bool)
    requires br.yes in first && br.no in first && br.yes != br.no && |cs| == 1
    ensures AfterBranch(first, br, cs)[Target(br, taken)]
         == RecordEdge(first[Target(br, taken)], cs[0].0, Taken(cs[0].1, taken))
  {
    AfterOne(first, br, cs);
  }

  lemma TargetAfterTwo(first: map<nat, Info>, br: Branch, cs: seq<(string, (Edge, Edge))>, taken: bool)
    requires br.yes in first && br.no in first && br.yes != br.no && |cs| == 2
    ensures var info := RecordEdge(first[Target(br, taken)], cs[0].0, Taken(cs[0].1, taken));
      AfterBranch(first, br, cs)[Target(br, taken)] == RecordEdge(info, cs[1].0, Taken(cs[1].1, taken))
  {
    AfterTwo(first, br, cs);
  }

  /** A state of two values of one name. */
  function Pair(i: nat, j: nat, name: string, x: Int32, y: Int32): Values {
    map[i := Named(name, x), j := Named(name, y)]
  }

  /** Recording under a name of two values admits both or neither. */
  lemma PairModels(info: Info, i: nat, j: nat, name: string, edge: Edge, x: Int32, y: Int32)
    requires i != j && info.reachable && name !in info.ranges
    ensures Models(RecordEdge(info, name, edge), Pair(i, j, name, x, y)) <==> !Excluded(edge, x) && !Excluded(edge, y)
  {
    var values := Pair(i, j, name, x, y);
    assert values[i] == Named(name, x) && values[j] == Named(name, y);
  }

  /** What is recorded for the block behind an edge is true of a state in which the operand on the left has the value x,
      and another value of the same name has the value y. */
  ghost predicate Survives(first: map<nat, Info>, ranges: Ranges, br: Branch, other: nat, taken: bool, x: Int32,
          y: Int32)
    requires br.yes in first && br.no in first && RangesOk(ranges) && br.lhs.Variable?
  {
    var after := AfterBranch(first, br, Conclusions(br, ranges));
    Models(after[Target(br, taken)], Pair(br.lhs.id, other, br.lhs.name, x, y))
  }

  /** What is known on an edge. */
  function OnEdge(rel: Relation, taken: bool): Relation {
    if taken then rel else Negated(rel)
  }

  predicate Strict(rel: Relation) {
    rel == Greater || rel == Less
  }

  /** A range without values beyond infinity. */
  predicate IsFinite(r: Range) {
    FirstOk(r) && MINUS_INF <= r[0] && r[1] <= INF
  }

  /** What the edge of a comparison of two values with the same range records: a strict edge what is left without one
      of the bounds, the others all. */
  lemma NamesakeEdges(rel: Relation, r: Range, taken: bool)
    requires IsFinite(r)
    ensures var edge := Taken(VariableEdges(rel, r, r), taken);
      match OnEdge(rel, taken)
      case Greater => edge == if r[0] < r[1] then Record([r[0] + 1, r[1]]) else Nothing
      case Less => edge == if r[0] < r[1] then Record([r[0], r[1] - 1]) else Nothing
      case AtLeast => edge == Record([r[0], r[1]])
      case AtMost => edge == Record([r[0], r[1]])
      case _ => edge == Nothing
  {}

  /** The block an edge leads to, after a comparison of two different values with one name of which nothing was
      recorded there: what the left one records is not overwritten by the right one. */
  lemma NamesakesRecorded(first: map<nat, Info>, ranges: Ranges, br: Branch, taken: bool)
    requires br.yes in first && br.no in first && br.yes != br.no && RangesOk(ranges)
    requires br.lhs.Variable? && br.rhs.Variable? && br.lhs.id != br.rhs.id && br.lhs.name == br.rhs.name
    requires IsFinite(TryGetRange(br.lhs.name, ranges)) && br.lhs.name !in first[Target(br, taken)].ranges
    ensures var info, r := first[Target(br, taken)], TryGetRange(br.lhs.name, ranges);
      AfterBranch(first, br, Conclusions(br, ranges))[Target(br, taken)]
      == RecordEdge(info, br.lhs.name, Taken(VariableEdges(Reading(br.pred), r, r), taken))
  {
    var rel, r := Reading(br.pred), TryGetRange(br.lhs.name, ranges);
    TargetAfterTwo(first, br, Conclusions(br, ranges), taken);
    NamesakeEdges(rel, r, taken);
    NamesakeEdges(Mirrored(rel), r, taken);
    hide AfterBranch, VariableEdges, IsFinite;
  }

  /** A value compared with itself, of which nothing was recorded for the block: on the edge that is always taken all of
      its range is kept; the other one records the range without its least value, or without its greatest if the
      comparison allows equality, whichever way round it is written. */
  lemma SelfComparison(first: map<nat, Info>, ranges: Ranges, br: Branch, taken: bool)
    requires br.yes in first && br.no in first && br.yes != br.no && RangesOk(ranges)
    requires br.lhs.Variable? && br.rhs == br.lhs && br.pred != EQ && br.pred != NE
    requires IsFinite(TryGetRange(br.lhs.name, ranges)) && br.lhs.name !in first[Target(br, taken)].ranges
    ensures var info, r, rel := first[Target(br, taken)], TryGetRange(br.lhs.name, ranges), Reading(br.pred);
      AfterBranch(first, br, Conclusions(br, ranges))[Target(br, taken)] ==
        if Stands(rel, 0, 0) == taken then Insert(info, br.lhs.name, [r[0], r[1]])
        else if r[0] == r[1] then info
        else Insert(info, br.lhs.name, if Strict(rel) then [r[0] + 1, r[1]] else [r[0], r[1] - 1])
  {
    var rel, r := Reading(br.pred), TryGetRange(br.lhs.name, ranges);
    TargetAfterTwo(first, br, Conclusions(br, ranges), taken);
    NamesakeEdges(Upward(rel), r, taken);
    NamesakeEdges(Mirrored(Upward(rel)), r, taken);
    hide AfterBranch, VariableEdges, IsFinite;
  }

  /** Two different values that share a name, compared with each other: what is recorded is true of all states that take
      the edge exactly if the edge is not that of a strict comparison, or the range has one value only. */
  lemma NamesakesBranch(first: map<nat, Info>, ranges: Ranges, br: Branch, taken: bool)
    requires br.yes in first && br.no in first && br.yes != br.no && RangesOk(ranges)
    requires br.lhs.Variable? && br.rhs.Variable? && br.lhs.id != br.rhs.id && br.lhs.name == br.rhs.name
    requires IsFinite(TryGetRange(br.lhs.name, ranges))
    requires IsUnsigned(br.pred) ==> TryGetRange(br.lhs.name, ranges)[0] >= 0
    requires first[Target(br, taken)].reachable && br.lhs.name !in first[Target(br, taken)].ranges
    ensures var r := TryGetRange(br.lhs.name, ranges);
      (forall x: Int32, y: Int32 :: InFirst(r, x) && InFirst(r, y) && Holds(br.pred, x, y) == taken ==>
        Survives(first, ranges, br, br.rhs.id, taken, x, y))
      <==> !(Strict(OnEdge(Reading(br.pred), taken)) && r[0] < r[1])
  {
    var rel, r := Reading(br.pred), TryGetRange(br.lhs.name, ranges);
    var edge := Taken(VariableEdges(rel, r, r), taken);
    NamesakesKept(rel, r, taken);
    hide Survives, Excluded, VariableEdges, RangesOk, Strict, IsFinite;
    forall x: Int32, y: Int32 | InFirst(r, x) && InFirst(r, y)
      ensures Survives(first, ranges, br, br.rhs.id, taken, x, y) <==> (!Excluded(edge, x) && !Excluded(edge, y))
      ensures Holds(br.pred, x, y) == taken <==> Stands(OnEdge(rel, taken), x, y)
    {
      NamesakesSurvive(first, ranges, br, taken, x, y);
    }
  }

  lemma NamesakesSurvive(first: map<nat, Info>, ranges: Ranges, br: Branch, taken: bool, x: Int32, y: Int32)
    requires br.yes in first && br.no in first && br.yes != br.no && RangesOk(ranges)
    requires br.lhs.Variable? && br.rhs.Variable? && br.lhs.id != br.rhs.id && br.lhs.name == br.rhs.name
    requires first[Target(br, taken)].reachable && br.lhs.name !in first[Target(br, taken)].ranges
    requires var r := TryGetRange(br.lhs.name, ranges);
      IsFinite(r) && InFirst(r, x) && InFirst(r, y) && (IsUnsigned(br.pred) ==> r[0] >= 0)
    ensures var rel, r := Reading(br.pred), TryGetRange(br.lhs.name, ranges);
      var edge := Taken(VariableEdges(rel, r, r), taken);
      && (Survives(first, ranges, br, br.rhs.id, taken, x, y) <==> (!Excluded(edge, x) && !Excluded(edge, y)))
      && (Holds(br.pred, x, y) == taken <==> Stands(OnEdge(rel, taken), x, y))
  {
    var rel, r := Reading(br.pred), TryGetRange(br.lhs.name, ranges);
    assert Holds(br.pred, x, y) == taken <==> Stands(OnEdge(rel, taken), x, y);
    hide Holds, Stands, VariableEdges, AfterBranch, Conclusions, Models, RecordEdge, Excluded;
    NamesakesRecorded(first, ranges, br, taken);
    PairModels(first[Target(br, taken)], br.lhs.id, br.rhs.id, br.lhs.name, Taken(VariableEdges(rel, r, r), taken),
      x, y);
  }

  /** The same, said of the edge only. */
  lemma NamesakesKept(rel: Relation, r: Range, taken: bool)
    requires IsFinite(r)
    ensures var edge := Taken(VariableEdges(rel, r, r), taken);
      (forall x: Int32, y: Int32 :: InFirst(r, x) && InFirst(r, y) && Stands(OnEdge(rel, taken), x, y) ==>
        !Excluded(edge, x) && !Excluded(edge, y))
      <==> !(Strict(OnEdge(rel, taken)) && r[0] < r[1])
  {
    NamesakeEdges(rel, r, taken);
    hide VariableEdges;
    if Strict(OnEdge(rel, taken)) && r[0] < r[1] {
      assert InFirst(r, r[0]) && InFirst(r, r[1]);
      if OnEdge(rel, taken) == Greater {
        assert Stands(Greater, r[1], r[0]);
      } else {
        assert Stands(Less, r[0], r[1]);
      }
    }
  }

  /** So for 3 < 10, where both values are known to be between 0 and 10. */
  lemma NamesakesLoseStates()
    ensures var br, empty := Branch(SLT, Variable(0, ""), Variable(1, ""), 0, 1), Info(map[], true);
      var after := AfterBranch(map[0 := empty, 1 := empty], br, Conclusions(br, map["" := [0, 10]]));
      Holds(SLT, 3, 10) && Models(empty, Pair(0, 1, "", 3, 10)) && !Models(after[0], Pair(0, 1, "", 3, 10))
  {
    var br, empty := Branch(SLT, Variable(0, ""), Variable(1, ""), 0, 1), Info(map[], true);
    var ranges: Ranges := map["" := [0, 10]];
    NamesakesRecorded(map[0 := empty, 1 := empty], ranges, br, true);
    NamesakeEdges(Less, [0, 10], true);
    assert Pair(0, 1, "", 3, 10)[1] == Named("", 10);
  }

  // ----- A value that is no operand, and shares the name of one -----

  /** All values of a range stand in the relation to some value of the other range, or none does. */
  predicate AllOrNone(rel: Relation, range: Range, other: Range)
    requires |range| >= 2 && |other| >= 2
  {
    match rel
    case Equal => (other[0] <= range[0] && range[1] <= other[1]) || range[1] < other[0] || other[1] < range[0]
    case Different => other[0] < other[1] || range[0] == range[1] || range[1] < other[0] || other[1] < range[0]
    case Greater => range[0] > other[0] || range[1] <= other[0]
    case AtLeast => range[0] >= other[0] || range[1] < other[0]
    case Less => range[1] < other[1] || range[0] >= other[1]
    case AtMost => range[1] <= other[1] || range[0] > other[1]
  }

  /** x stands in the relation to some value of the range. */
  ghost predicate HasPartner(rel: Relation, x: Int32, other: Range) {
    exists y: Int32 :: InFirst(other, y) && Stands(rel, x, y)
  }

  lemma PartnerIff(rel: Relation, x: Int32, other: Range)
    requires FirstOk(other)
    ensures HasPartner(rel, x, other) <==>
      match rel
      case Equal => other[0] <= x <= other[1]
      case Different => other[0] < other[1] || x != other[0]
      case Greater => x > other[0]
      case AtLeast => x >= other[0]
      case Less => x < other[1]
      case AtMost => x <= other[1]
  {
    assert InFirst(other, other[0]) && InFirst(other, other[1]);
    if rel == Equal && other[0] <= x <= other[1] { assert InFirst(other, x) && Stands(rel, x, x); }
    assert Stands(rel, x, other[0]) ==> HasPartner(rel, x, other);
    assert Stands(rel, x, other[1]) ==> HasPartner(rel, x, other);
  }

  lemma AllOrNoneMeans(rel: Relation, range: Range, other: Range)
    requires FirstOk(range) && FirstOk(other)
    ensures AllOrNone(rel, range, other) <==>
      forall x: Int32, z: Int32 :: InFirst(range, x) && InFirst(range, z) && HasPartner(rel, x, other) ==>
        HasPartner(rel, z, other)
  {
    forall x: Int32 { PartnerIff(rel, x, other); }
    assert InFirst(range, range[0]) && InFirst(range, range[1]);
    PartnerIff(rel, range[0], other);
    PartnerIff(rel, range[1], other);
    hide HasPartner;
    if rel == Equal && other[0] <= range[1] && range[0] <= other[1] {
      var x := Max(range[0], other[0]);
      assert InFirst(range, x);
      PartnerIff(rel, x, other);
    }
    if rel == Different && other[0] == other[1] && range[0] <= other[0] <= range[1] {
      assert InFirst(range, other[0]);
      PartnerIff(rel, other[0], other);
    }
  }

  /** The operand on the left of a comparison, or the one on the right. */
  function Side(br: Branch, left: bool): Operand {
    if left then br.lhs else br.rhs
  }

  /** How the comparison reads from there. */
  function ReadingFrom(br: Branch, left: bool): Relation {
    if left then Reading(br.pred) else Mirrored(Reading(br.pred))
  }

  predicate HoldsFrom(br: Branch, left: bool, x: Int32, y: Int32) {
    if left then Holds(br.pred, x, y) else Holds(br.pred, y, x)
  }

  /** Both edges for the operand of a side. */
  function EdgesFrom(br: Branch, left: bool, ranges: Ranges): (Edge, Edge)
    requires RangesOk(ranges) && Side(br, left).Variable?
  {
    var a, b := Side(br, left), Side(br, !left);
    var r := TryGetRange(a.name, ranges);
    if b.Constant? then ConstantEdges(ReadingFrom(br, left), a.name in ranges, r, b.value)
    else VariableEdges(ReadingFrom(br, left), r, TryGetRange(b.name, ranges))
  }

  /** Nothing is recorded for an equality of two variables, or of an unrecorded variable with a constant. */
  predicate NothingNoted(br: Branch, left: bool, ranges: Ranges) {
    && (br.pred == EQ || br.pred == NE)
    && (Side(br, !left).Variable? || (br.pred == EQ && Side(br, left).Variable? && Side(br, left).name !in ranges))
  }

  /** A state of the operand a with the value x, the operand b with the value y, and another value z that has the name
      of a. */
  function Crowd(a: Operand, b: Operand, other: nat, x: Int32, y: Int32, z: Int32): Values
    requires a.Variable?
  {
    var values := Pair(a.id, other, a.name, x, z);
    if b.Variable? then values[b.id := Named(b.name, y)] else values
  }

  /** What is recorded for the block behind the edge is true of it. */
  ghost predicate CrowdSurvives(first: map<nat, Info>, ranges: Ranges, br: Branch, left: bool, other: nat, taken: bool,
          x: Int32, y: Int32, z: Int32)
    requires br.yes in first && br.no in first && RangesOk(ranges) && Side(br, left).Variable?
  {
    var after := AfterBranch(first, br, Conclusions(br, ranges));
    Models(after[Target(br, taken)], Crowd(Side(br, left), Side(br, !left), other, x, y, z))
  }

  /** The table of the target has nothing on the operands, which have finite ranges and different names; and other is
      neither of them. */
  predicate IsBystander(first: map<nat, Info>, ranges: Ranges, br: Branch, left: bool, other: nat, taken: bool)
    requires br.yes in first && br.no in first && RangesOk(ranges)
  {
    var a, b, info := Side(br, left), Side(br, !left), first[Target(br, taken)];
    && br.yes != br.no && info.reachable
    && a.Variable? && a.id != other && a.name !in info.ranges && IsFinite(TryGetRange(a.name, ranges))
    && (b.Variable? ==>
          && b.id != a.id && b.id != other && b.name != a.name && b.name !in info.ranges
          && IsFinite(TryGetRange(b.name, ranges)))
    && (IsUnsigned(br.pred) ==> Bounds(a, ranges)[0] >= 0 && Bounds(b, ranges)[0] >= 0)
  }

  lemma CrowdModels(info: Info, a: Operand, b: Operand, other: nat, ea: Edge, eb: Edge, x: Int32, y: Int32, z: Int32)
    requires a.Variable? && b.Variable? && a.id != other && b.id != a.id && b.id != other && b.name != a.name
    requires info.reachable && a.name !in info.ranges && b.name !in info.ranges
    ensures Models(RecordEdge(RecordEdge(info, a.name, ea), b.name, eb), Crowd(a, b, other, x, y, z))
      <==> !Excluded(ea, x) && !Excluded(ea, z) && !Excluded(eb, y)
    ensures RecordEdge(RecordEdge(info, a.name, ea), b.name, eb) == RecordEdge(RecordEdge(info, b.name, eb), a.name, ea)
  {
    var values := Crowd(a, b, other, x, y, z);
    assert values[a.id] == Named(a.name, x) && values[other] == Named(a.name, z) && values[b.id] == Named(b.name, y);
  }

  /** The state survives if neither edge keeps its values out. */
  lemma CrowdIff(first: map<nat, Info>, ranges: Ranges, br: Branch, left: bool, other: nat, taken: bool, x: Int32,
          y: Int32, z: Int32)
    requires br.yes in first && br.no in first && RangesOk(ranges) && IsBystander(first, ranges, br, left, other, taken)
    ensures var edge := Taken(EdgesFrom(br, left, ranges), taken);
      CrowdSurvives(first, ranges, br, left, other, taken, x, y, z) <==>
        && !Excluded(edge, x) && !Excluded(edge, z)
        && (Side(br, !left).Variable? ==> !Excluded(Taken(EdgesFrom(br, !left, ranges), taken), y))
  {
    var a, b, info, cs := Side(br, left), Side(br, !left), first[Target(br, taken)], Conclusions(br, ranges);
    var ea := Taken(EdgesFrom(br, left, ranges), taken);
    if b.Constant? {
      TargetAfterOne(first, br, cs, taken);
      assert cs[0] == (a.name, EdgesFrom(br, left, ranges));
      hide AfterBranch, Models, RecordEdge, EdgesFrom, Conclusions;
      PairModels(info, a.id, other, a.name, ea, x, z);
    } else {
      var eb := Taken(EdgesFrom(br, !left, ranges), taken);
      TargetAfterTwo(first, br, cs, taken);
      assert if left then cs == [(a.name, EdgesFrom(br, left, ranges)), (b.name, EdgesFrom(br, !left, ranges))]
             else cs == [(b.name, EdgesFrom(br, !left, ranges)), (a.name, EdgesFrom(br, left, ranges))];
      hide AfterBranch, Models, RecordEdge, EdgesFrom, Conclusions;
      CrowdModels(info, a, b, other, ea, eb, x, y, z);
    }
  }

  /** If one value of a finite range can take an edge of a comparison with a constant, the edge records just those that
      can. */
  lemma ConstantKeeps(rel: Relation, known: bool, r: Range, c: Int32, taken: bool, x: Int32, z: Int32)
    requires IsFinite(r) && InFirst(r, x) && InFirst(r, z) && (rel == Equal ==> known)
    requires Stands(OnEdge(rel, taken), x, c)
    ensures Excluded(Taken(ConstantEdges(rel, known, r, c), taken), z) <==> !Stands(OnEdge(rel, taken), z, c)
  {
    if rel == Equal || rel == Different {
      EqualityEdgesTight(rel, r, c, z);
      hide Excluded, Cut, CanBeCut, Bounded;
    } else {
      hide Excluded, Bounded;
      BoundedExact([c, INF], r, z);
      BoundedExact([Successor(c), INF], r, z);
      BoundedExact([MINUS_INF, c], r, z);
      BoundedExact([MINUS_INF, Predecessor(c)], r, z);
    }
  }

  lemma VariableKeeps(rel: Relation, r: Range, s: Range, taken: bool, x: Int32, y: Int32, z: Int32)
    requires IsFinite(r) && IsFinite(s) && InFirst(r, x) && InFirst(s, y) && InFirst(r, z)
    requires rel != Equal && rel != Different && Stands(OnEdge(rel, taken), x, y)
    ensures Excluded(Taken(VariableEdges(rel, r, s), taken), z) <==> !HasPartner(OnEdge(rel, taken), z, s)
  {
    PartnerIff(OnEdge(rel, taken), z, s);
  }

  lemma TakenFrom(first: map<nat, Info>, ranges: Ranges, br: Branch, left: bool, other: nat, taken: bool, x: Int32,
          y: Int32)
    requires br.yes in first && br.no in first && RangesOk(ranges) && IsBystander(first, ranges, br, left, other, taken)
    requires InFirst(TryGetRange(Side(br, left).name, ranges), x) && InFirst(Bounds(Side(br, !left), ranges), y)
    ensures HoldsFrom(br, left, x, y) == taken <==> Stands(OnEdge(ReadingFrom(br, left), taken), x, y)
  {
    assert IsUnsigned(br.pred) ==> x >= 0 && y >= 0;
    hide IsBystander, RangesOk, TryGetRange;
  }

  lemma StandsMirrored(rel: Relation, taken: bool, x: Int32, y: Int32)
    ensures Stands(OnEdge(Mirrored(rel), taken), y, x) <==> Stands(OnEdge(rel, taken), x, y)
  {}

  lemma HasOne(rel: Relation, x: Int32, y: Int32, other: Range)
    requires InFirst(other, y) && Stands(rel, x, y)
    ensures HasPartner(rel, x, other)
  {}

  lemma PartnerOfOne(rel: Relation, x: Int32, other: Range)
    requires |other| == 2 && other[0] == other[1]
    ensures HasPartner(rel, x, other) <==> Stands(rel, x, other[0])
  {
    assert InFirst(other, other[0]);
  }

  lemma NothingExcluded(br: Branch, left: bool, ranges: Ranges, taken: bool, x: Int32, y: Int32, z: Int32)
    requires RangesOk(ranges) && Side(br, left).Variable? && NothingNoted(br, left, ranges)
    ensures Taken(EdgesFrom(br, left, ranges), taken) == Nothing
    ensures Side(br, !left).Variable? ==> Taken(EdgesFrom(br, !left, ranges), taken) == Nothing
    ensures !Excluded(Nothing, x) && !Excluded(Nothing, y) && !Excluded(Nothing, z)
  {}

  lemma KeptFromConstant(first: map<nat, Info>, ranges: Ranges, br: Branch, left: bool, other: nat, taken: bool,
          x: Int32, y: Int32, z: Int32)
    requires br.yes in first && br.no in first && RangesOk(ranges) && IsBystander(first, ranges, br, left, other, taken)
    requires var r, s := TryGetRange(Side(br, left).name, ranges), Bounds(Side(br, !left), ranges);
      InFirst(r, x) && InFirst(s, y) && InFirst(r, z) && Stands(OnEdge(ReadingFrom(br, left), taken), x, y)
    requires Side(br, !left).Constant? && !NothingNoted(br, left, ranges)
    ensures var edge, rel := Taken(EdgesFrom(br, left, ranges), taken), OnEdge(ReadingFrom(br, left), taken);
      !Excluded(edge, x) && (Excluded(edge, z) <==> !HasPartner(rel, z, Bounds(Side(br, !left), ranges)))
  {
    var a, b := Side(br, left), Side(br, !left);
    var rel, r := ReadingFrom(br, left), TryGetRange(a.name, ranges);
    hide ConstantEdges, Stands, HasPartner, Excluded, IsUnsigned, RangesOk;
    ConstantKeeps(rel, a.name in ranges, r, b.value, taken, x, x);
    ConstantKeeps(rel, a.name in ranges, r, b.value, taken, x, z);
    PartnerOfOne(OnEdge(rel, taken), z, Bounds(b, ranges));
  }

  /** A second interval of the other operand makes no difference. */
  lemma OnlyFirstMatters(rel: Relation, r: Range, s: Range)
    requires FirstOk(r) && FirstOk(s)
    ensures VariableEdges(rel, r, s) == VariableEdges(rel, r, s[..2])
    ensures forall y: Int32 :: InFirst(s, y) <==> InFirst(s[..2], y)
    ensures IsFinite(s) ==> IsFinite(s[..2])
  {}

  lemma KeptFromVariable(first: map<nat, Info>, ranges: Ranges, br: Branch, left: bool, other: nat, taken: bool,
          x: Int32, y: Int32, z: Int32)
    requires br.yes in first && br.no in first && RangesOk(ranges) && IsBystander(first, ranges, br, left, other, taken)
    requires var r, s := TryGetRange(Side(br, left).name, ranges), Bounds(Side(br, !left), ranges);
      InFirst(r, x) && InFirst(s, y) && InFirst(r, z) && Stands(OnEdge(ReadingFrom(br, left), taken), x, y)
    requires Side(br, !left).Variable? && !NothingNoted(br, left, ranges)
    ensures var edge, rel := Taken(EdgesFrom(br, left, ranges), taken), OnEdge(ReadingFrom(br, left), taken);
      !Excluded(edge, x) && (Excluded(edge, z) <==> !HasPartner(rel, z, Bounds(Side(br, !left), ranges)))
    ensures !Excluded(Taken(EdgesFrom(br, !left, ranges), taken), y)
  {
    var a, b := Side(br, left), Side(br, !left);
    var rel, r, s := ReadingFrom(br, left), TryGetRange(a.name, ranges), TryGetRange(b.name, ranges);
    var bounds := Bounds(b, ranges);
    OnlyFirstMatters(rel, r, s);
    assert ReadingFrom(br, !left) == Mirrored(rel) && rel != Equal && rel != Different;
    hide VariableEdges, Stands, HasPartner, Excluded, IsUnsigned, RangesOk, Mirrored, OnEdge, InFirst, IsFinite;
    StandsMirrored(rel, taken, x, y);
    VariableKeeps(rel, r, bounds, taken, x, y, x);
    VariableKeeps(rel, r, bounds, taken, x, y, z);
    OtherKept(rel, r, s, taken, x, y);
    HasOne(OnEdge(rel, taken), x, y, bounds);
  }

  lemma OtherKept(rel: Relation, r: Range, s: Range, taken: bool, x: Int32, y: Int32)
    requires IsFinite(r) && IsFinite(s) && InFirst(r, x) && InFirst(s, y) && Stands(OnEdge(rel, taken), x, y)
    ensures !Excluded(Taken(VariableEdges(Mirrored(rel), s, r), taken), y)
  {
    VariableEdgesKeep(Mirrored(rel), s, r, y, x);
  }

  /** In a state that takes an edge nothing but the bystander can be kept out. */
  lemma BystanderSurvives(first: map<nat, Info>, ranges: Ranges, br: Branch, left: bool, other: nat, taken: bool,
          x: Int32, y: Int32, z: Int32)
    requires br.yes in first && br.no in first && RangesOk(ranges) && IsBystander(first, ranges, br, left, other, taken)
    requires var r, s := TryGetRange(Side(br, left).name, ranges), Bounds(Side(br, !left), ranges);
      InFirst(r, x) && InFirst(s, y) && InFirst(r, z) && HoldsFrom(br, left, x, y) == taken
    ensures var rel, s := OnEdge(ReadingFrom(br, left), taken), Bounds(Side(br, !left), ranges);
      && HasPartner(rel, x, s)
      && (CrowdSurvives(first, ranges, br, left, other, taken, x, y, z) <==>
            NothingNoted(br, left, ranges) || HasPartner(rel, z, s))
  {
    var b, rel := Side(br, !left), OnEdge(ReadingFrom(br, left), taken);
    TakenFrom(first, ranges, br, left, other, taken, x, y);
    assert HasPartner(rel, x, Bounds(b, ranges)) by { HasOne(rel, x, y, Bounds(b, ranges)); }
    CrowdIff(first, ranges, br, left, other, taken, x, y, z);
    hide CrowdSurvives, Excluded, HasPartner, IsBystander, EdgesFrom, NothingNoted, OnEdge, ReadingFrom, RangesOk;
    if NothingNoted(br, left, ranges) {
      NothingExcluded(br, left, ranges, taken, x, y, z);
    } else if b.Constant? {
      KeptFromConstant(first, ranges, br, left, other, taken, x, y, z);
    } else {
      KeptFromVariable(first, ranges, br, left, other, taken, x, y, z);
    }
  }

  /** A value that shares the name of an operand: what is recorded is true of all states that take the edge exactly if
      nothing is recorded, or all values in the range of the operand can take the edge, or none can. */
  lemma BystanderBranch(first: map<nat, Info>, ranges: Ranges, br: Branch, left: bool, other: nat, taken: bool)
    requires br.yes in first && br.no in first && RangesOk(ranges) && IsBystander(first, ranges, br, left, other, taken)
    ensures var r, s := TryGetRange(Side(br, left).name, ranges), Bounds(Side(br, !left), ranges);
      (forall x: Int32, y: Int32, z: Int32 ::
        InFirst(r, x) && InFirst(s, y) && InFirst(r, z) && HoldsFrom(br, left, x, y) == taken ==>
          CrowdSurvives(first, ranges, br, left, other, taken, x, y, z))
      <==> NothingNoted(br, left, ranges) || AllOrNone(OnEdge(ReadingFrom(br, left), taken), r, s)
  {
    var r, s := TryGetRange(Side(br, left).name, ranges), Bounds(Side(br, !left), ranges);
    var rel := OnEdge(ReadingFrom(br, left), taken);
    AllOrNoneMeans(rel, r, s);
    hide CrowdSurvives, IsBystander, AllOrNone, NothingNoted, HoldsFrom, OnEdge, ReadingFrom, InFirst;
    forall x: Int32, y: Int32, z: Int32 |
      InFirst(r, x) && InFirst(s, y) && InFirst(r, z) && HoldsFrom(br, left, x, y) == taken
      ensures HasPartner(rel, x, s)
      ensures CrowdSurvives(first, ranges, br, left, other, taken, x, y, z) <==>
        NothingNoted(br, left, ranges) || HasPartner(rel, z, s)
    {
      BystanderSurvives(first, ranges, br, left, other, taken, x, y, z);
    }
    forall x: Int32, y: Int32 | InFirst(r, x) && InFirst(s, y)
      ensures HoldsFrom(br, left, x, y) == taken <==> Stands(rel, x, y)
    {
      TakenFrom(first, ranges, br, left, other, taken, x, y);
    }
  }

  /** So for 3 < 5, when another value that goes by the same name is 10: the edge records [0, 4] for the name. */
  lemma BystanderIsLost()
    ensures var br, empty := Branch(SLT, Variable(0, ""), Constant(5), 0, 1), Info(map[], true);
      var after := AfterBranch(map[0 := empty, 1 := empty], br, Conclusions(br, map["" := [0, 10]]));
      Holds(SLT, 3, 5) && Models(empty, Pair(0, 1, "", 3, 10)) && !Models(after[0], Pair(0, 1, "", 3, 10))
  {
    var br, empty := Branch(SLT, Variable(0, ""), Constant(5), 0, 1), Info(map[], true);
    var first := map[0 := empty, 1 := empty];
    var ranges: Ranges := map["" := [0, 10]];
    BystanderSurvives(first, ranges, br, true, 1, true, 3, 5, 10);
    PartnerOfOne(Less, 10, [5, 5]);
    assert !CrowdSurvives(first, ranges, br, true, 1, true, 3, 5, 10);
  }
}
